/** The canonical form the audit chain is MACed over: sorted keys, no spaces,
    Python's number spelling. */
module Canonical {
  import opened Wrappers
  import opened JsonValues
  import opened JsonText

  // ---- key order ----

  /** `a` sorts strictly before `b`, by code point. */
  predicate Before(a: string, b: string) {
    if b == [] then false
    else if a == [] then true
    else if a[0] == b[0] then Before(a[1..], b[1..])
    else a[0] < b[0]
  }

  lemma {:induction false} BeforeTotal(a: string, b: string)
    ensures a == b || Before(a, b) || Before(b, a)
    ensures !(Before(a, b) && Before(b, a))
    ensures a == b ==> !Before(a, b)
  {
    if a != [] && b != [] {
      BeforeTotal(a[1..], b[1..]);
      assert a == [a[0]] + a[1..] && b == [b[0]] + b[1..];
    }
  }

  lemma {:induction false} BeforeTransitive(a: string, b: string, c: string)
    requires Before(a, b) && Before(b, c)
    ensures Before(a, c)
  {
    if a != [] && b != [] && c != [] && a[0] == b[0] == c[0] {
      BeforeTransitive(a[1..], b[1..], c[1..]);
    }
  }

  /** Insertion into a sequence sorted by key, after any equal keys. */
  function Insert(m: Member, ms: seq<Member>): (r: seq<Member>)
    ensures multiset(r) == multiset(ms) + multiset{m}
  {
    if ms == [] || Before(m.key, ms[0].key) then
      assert multiset([m] + ms) == multiset(ms) + multiset{m};
      [m] + ms
    else
      assert ms == [ms[0]] + ms[1..];
      [ms[0]] + Insert(m, ms[1..])
  }

  /** sorted(items, key=first): a stable sort of the members by key. */
  function Sort(ms: seq<Member>): (r: seq<Member>)
    ensures multiset(r) == multiset(ms)
    ensures |r| == |ms|
    ensures forall m :: m in r <==> m in ms
  {
    if ms == [] then []
    else
      var last := |ms| - 1;
      assert ms == ms[..last] + [ms[last]];
      var r := Insert(ms[last], Sort(ms[..last]));
      assert |multiset(r)| == |multiset(ms)|;
      assert forall m :: m in r <==> m in multiset(r);
      r
  }

  ghost predicate StrictlySorted(ms: seq<Member>) {
    forall i, j | 0 <= i < j < |ms| :: Before(ms[i].key, ms[j].key)
  }

  lemma {:induction false} InsertSorted(m: Member, ms: seq<Member>)
    requires StrictlySorted(ms)
    requires forall i | 0 <= i < |ms| :: ms[i].key != m.key
    ensures StrictlySorted(Insert(m, ms))
  {
    if ms == [] {
    } else if Before(m.key, ms[0].key) {
      forall j | 0 < j < |ms| ensures Before(m.key, ms[j].key) {
        BeforeTransitive(m.key, ms[0].key, ms[j].key);
      }
    } else {
      BeforeTotal(m.key, ms[0].key);
      var rest := Insert(m, ms[1..]);
      InsertSorted(m, ms[1..]);
      forall j | 0 <= j < |rest| ensures Before(ms[0].key, rest[j].key) {
        assert rest[j] in multiset(rest);
        assert rest[j] == m || rest[j] in ms[1..];
      }
    }
  }

  lemma {:induction false} SortSorted(ms: seq<Member>)
    requires DistinctKeys(ms)
    ensures StrictlySorted(Sort(ms))
  {
    if ms != [] {
      var last := |ms| - 1;
      SortSorted(ms[..last]);
      var sorted := Sort(ms[..last]);
      forall i | 0 <= i < |sorted| ensures sorted[i].key != ms[last].key {
        assert sorted[i] in ms[..last];
      }
      InsertSorted(ms[last], sorted);
    }
  }

  // ---- the canonical text ----

  function Height(v: Json): nat {
    match v
    case Arr(items) => 1 + ItemsHeight(items)
    case Obj(members) => 1 + MembersHeight(members)
    case _ => 0
  }

  function ItemsHeight(items: seq<Json>): (h: nat)
    ensures forall i | 0 <= i < |items| :: Height(items[i]) <= h
  {
    if items == [] then 0
    else
      var rest := ItemsHeight(items[1..]);
      assert forall i | 1 <= i < |items| :: items[i] == items[1..][i - 1];
      if Height(items[0]) > rest then Height(items[0]) else rest
  }

  function MembersHeight(ms: seq<Member>): (h: nat)
    ensures forall i | 0 <= i < |ms| :: Height(ms[i].value) <= h
  {
    if ms == [] then 0
    else
      var rest := MembersHeight(ms[1..]);
      assert forall i | 1 <= i < |ms| :: ms[i] == ms[1..][i - 1];
      if Height(ms[0].value) > rest then Height(ms[0].value) else rest
  }

  /** Text of a float; NaN and the infinities raise. */
  function CanonicalNumber(x: Number): Option<string> {
    match x
    case Finite(t) => Some(t)
    case NaN => None
    case Infinity(_) => None
  }

  /** The canonical text of `v`, or None where the printer raises ValueError. */
  function Canonicalize(v: Json): Option<string>
    decreases Height(v), 1, 0
  {
    match v
    case Null => Some("null")
    case Bool(b) => Some(if b then "true" else "false")
    case Int(n) => Some(IntText(n))
    case Float(x) => CanonicalNumber(x)
    case Str(s) => Some(Quote(s))
    case Arr(items) =>
      var body :- CanonicalItems(items, Height(v));
      Some("[" + body + "]")
    case Obj(members) =>
      var body :- CanonicalMembers(Sort(members), Height(v));
      Some("{" + body + "}")
  }

  function CanonicalItems(items: seq<Json>, h: nat): Option<string>
    requires forall i | 0 <= i < |items| :: Height(items[i]) < h
    decreases h, 0, |items|
  {
    if items == [] then Some([])
    else
      var first :- Canonicalize(items[0]);
      if |items| == 1 then Some(first)
      else
        var rest :- CanonicalItems(items[1..], h);
        Some(first + "," + rest)
  }

  function CanonicalMembers(ms: seq<Member>, h: nat): Option<string>
    requires forall m | m in ms :: Height(m.value) < h
    decreases h, 0, |ms|
  {
    if ms == [] then Some([])
    else
      var text :- Canonicalize(ms[0].value);
      var first := Quote(ms[0].key) + ":" + text;
      if |ms| == 1 then Some(first)
      else
        var rest :- CanonicalMembers(ms[1..], h);
        Some(first + "," + rest)
  }

  // ---- the sorted value the text is of ----

  /** `v` with every object's members sorted by key. */
  ghost function Normal(v: Json): Json
    decreases Height(v), 1, 0
  {
    match v
    case Arr(items) => Arr(NormalItems(items, Height(v)))
    case Obj(members) => Obj(NormalMembers(Sort(members), Height(v)))
    case _ => v
  }

  ghost function NormalItems(items: seq<Json>, h: nat): (r: seq<Json>)
    requires forall i | 0 <= i < |items| :: Height(items[i]) < h
    ensures |r| == |items| && forall i | 0 <= i < |items| :: r[i] == Normal(items[i])
    decreases h, 0, |items|
  {
    if items == [] then [] else [Normal(items[0])] + NormalItems(items[1..], h)
  }

  ghost function NormalMembers(ms: seq<Member>, h: nat): (r: seq<Member>)
    requires forall m | m in ms :: Height(m.value) < h
    ensures |r| == |ms|
    ensures forall i | 0 <= i < |ms| :: r[i] == Member(ms[i].key, Normal(ms[i].value))
    decreases h, 0, |ms|
  {
    if ms == [] then []
    else [Member(ms[0].key, Normal(ms[0].value))] + NormalMembers(ms[1..], h)
  }

  lemma SortFinite(ms: seq<Member>)
    ensures MembersFinite(ms) <==> MembersFinite(Sort(ms))
  {
    assert forall i | 0 <= i < |ms| :: ms[i] in Sort(ms);
    assert forall i | 0 <= i < |ms| :: Sort(ms)[i] in ms;
  }

  lemma {:induction false} CanonicalIsPrinted(v: Json)
    ensures Canonicalize(v) == if AllFinite(v) then Some(Print(Normal(v), "")) else None
    ensures AllFinite(v) ==> AllFinite(Normal(v))
    decreases Height(v), 1, 0
  {
    match v
    case Arr(items) => ItemsArePrinted(items, Height(v));
    case Obj(members) =>
      MembersArePrinted(Sort(members), Height(v));
      SortFinite(members);
    case _ =>
  }

  lemma {:induction false} ItemsArePrinted(items: seq<Json>, h: nat)
    requires forall i | 0 <= i < |items| :: Height(items[i]) < h
    ensures CanonicalItems(items, h) ==
            if ItemsFinite(items) then Some(PrintItems(NormalItems(items, h), "")) else None
    ensures ItemsFinite(items) ==> ItemsFinite(NormalItems(items, h))
    decreases h, 0, |items|
  {
    if items != [] {
      CanonicalIsPrinted(items[0]);
      ItemsArePrinted(items[1..], h);
      assert ItemsFinite(items) <==> AllFinite(items[0]) && ItemsFinite(items[1..]) by {
        assert forall i | 1 <= i < |items| :: items[i] == items[1..][i - 1];
      }
      var normal := NormalItems(items, h);
      assert normal[1..] == NormalItems(items[1..], h);
      PrintItemsNoGap(normal);
    }
  }

  lemma PrintItemsNoGap(items: seq<Json>)
    requires items != []
    ensures |items| > 1 ==> PrintItems(items, "") == Print(items[0], "") + "," + PrintItems(items[1..], "")
  {
    var first := Print(items[0], "") + ",";
    assert first + "" == first;
  }

  predicate ItemsFinite(items: seq<Json>) {
    forall i | 0 <= i < |items| :: AllFinite(items[i])
  }

  predicate MembersFinite(ms: seq<Member>) {
    forall i | 0 <= i < |ms| :: AllFinite(ms[i].value)
  }

  lemma {:induction false} MembersArePrinted(ms: seq<Member>, h: nat)
    requires forall m | m in ms :: Height(m.value) < h
    ensures CanonicalMembers(ms, h) ==
            if MembersFinite(ms) then Some(PrintMembers(NormalMembers(ms, h), "")) else None
    ensures MembersFinite(ms) ==> MembersFinite(NormalMembers(ms, h))
    decreases h, 0, |ms|
  {
    if ms != [] {
      CanonicalIsPrinted(ms[0].value);
      MembersArePrinted(ms[1..], h);
      assert MembersFinite(ms) <==> AllFinite(ms[0].value) && MembersFinite(ms[1..]) by {
        assert forall i | 1 <= i < |ms| :: ms[i] == ms[1..][i - 1];
      }
      var normal := NormalMembers(ms, h);
      assert normal[1..] == NormalMembers(ms[1..], h);
      PrintMembersNoGap(normal);
    }
  }

  lemma PrintMembersNoGap(ms: seq<Member>)
    requires ms != []
    ensures PrintMember(ms[0], "") == Quote(ms[0].key) + ":" + Print(ms[0].value, "")
    ensures |ms| > 1 ==> PrintMembers(ms, "") == PrintMember(ms[0], "") + "," + PrintMembers(ms[1..], "")
  {
    var before := Quote(ms[0].key) + ":";
    assert before + "" == before;
    var first := PrintMember(ms[0], "") + ",";
    assert first + "" == first;
  }

  // ---- equal text means the same value ----

  /** With equal sorted forms, every member has one like it on the other side. */
  lemma Counterpart(a: seq<Member>, b: seq<Member>, i: nat) returns (j: nat)
    requires i < |a| && Normal(Obj(a)) == Normal(Obj(b))
    ensures j < |b| && a[i].key == b[j].key && Normal(a[i].value) == Normal(b[j].value)
  {
    var sa, sb := Sort(a), Sort(b);
    assert a[i] in sa;
    var p :| 0 <= p < |sa| && sa[p] == a[i];
    assert Normal(Obj(a)).members[p] == Normal(Obj(b)).members[p];
    assert sb[p] in b;
    j :| 0 <= j < |b| && b[j] == sb[p];
  }

  lemma {:induction false} EqualNormalIsSame(v: Json, w: Json)
    requires WellFormed(v) && WellFormed(w)
    requires Normal(v) == Normal(w)
    ensures Same(v, w)
    decreases Height(v), 1
  {
    match v
    case Arr(items) =>
      forall i | 0 <= i < |items| ensures Same(items[i], w.items[i]) {
        assert Normal(v).items[i] == Normal(w).items[i];
        EqualNormalIsSame(items[i], w.items[i]);
      }
    case Obj(members) => EqualNormalObjects(members, w.members);
    case _ =>
  }

  lemma {:induction false} EqualNormalObjects(a: seq<Member>, b: seq<Member>)
    requires WellFormed(Obj(a)) && WellFormed(Obj(b))
    requires Normal(Obj(a)) == Normal(Obj(b))
    ensures Same(Obj(a), Obj(b))
    decreases Height(Obj(a)), 0
  {
    forall i | 0 <= i < |a| ensures HasSame(a[i], b) {
      var j := Counterpart(a, b, i);
      EqualNormalIsSame(a[i].value, b[j].value);
    }
    assert |Normal(Obj(a)).members| == |Normal(Obj(b)).members|;
  }

  ghost function Keys(ms: seq<Member>): set<string> {
    set m | m in ms :: m.key
  }

  ghost predicate HasKey(ms: seq<Member>, key: string) {
    exists j | 0 <= j < |ms| :: ms[j].key == key
  }

  lemma KeysEmpty(ms: seq<Member>)
    ensures Keys(ms) == {} <==> ms == []
  {
    if ms != [] {
      assert ms[0].key in Keys(ms);
    }
  }

  lemma SortKeys(ms: seq<Member>)
    ensures Keys(Sort(ms)) == Keys(ms)
  {
  }

  lemma SameObjectIsInjection(a: seq<Member>, b: seq<Member>)
    requires DistinctKeys(a) && DistinctKeys(b) && |a| == |b|
    requires forall i | 0 <= i < |a| :: HasKey(b, a[i].key)
    ensures Keys(a) == Keys(b)
  {
    var ka, kb := Keys(a), Keys(b);
    assert ka <= kb;
    KeyCount(a);
    KeyCount(b);
    if ka != kb {
      assert ka < kb;
      SubsetSmaller(ka, kb);
    }
  }

  lemma SubsetSmaller<T>(a: set<T>, b: set<T>)
    requires a < b
    ensures |a| < |b|
  {
    assert |b| == |a| + |b - a|;
    assert b - a != {};
  }

  lemma {:induction false} KeyCount(ms: seq<Member>)
    requires DistinctKeys(ms)
    ensures |Keys(ms)| == |ms|
  {
    if ms != [] {
      var last := |ms| - 1;
      KeyCount(ms[..last]);
      var before := Keys(ms[..last]);
      assert ms[last].key !in before;
      assert Keys(ms) == before + {ms[last].key} by {
        assert ms == ms[..last] + [ms[last]];
      }
    }
  }

  /** Two strictly sorted sequences over the same keys list them alike. */
  lemma {:induction false} SortedKeysUnique(a: seq<Member>, b: seq<Member>)
    requires StrictlySorted(a) && StrictlySorted(b)
    requires Keys(a) == Keys(b)
    ensures |a| == |b| && forall i | 0 <= i < |a| :: a[i].key == b[i].key
  {
    KeysEmpty(a);
    KeysEmpty(b);
    if a != [] {
      assert a[0].key in Keys(a);
      assert b[0].key in Keys(b);
      var p :| 0 <= p < |b| && b[p].key == a[0].key;
      var q :| 0 <= q < |a| && a[q].key == b[0].key;
      BeforeTotal(a[0].key, b[0].key);
      assert a[0].key == b[0].key;
      TailKeys(a);
      TailKeys(b);
      SortedKeysUnique(a[1..], b[1..]);
      forall i | 1 <= i < |a| ensures a[i].key == b[i].key {
        assert a[i] == a[1..][i - 1] && b[i] == b[1..][i - 1];
      }
    }
  }

  lemma TailKeys(a: seq<Member>)
    requires a != [] && StrictlySorted(a)
    ensures Keys(a[1..]) == Keys(a) - {a[0].key}
  {
    assert a == [a[0]] + a[1..];
    forall m | m in a[1..] ensures m.key != a[0].key {
      BeforeTotal(a[0].key, m.key);
    }
  }

  lemma SortedAlike(a: seq<Member>, b: seq<Member>)
    requires DistinctKeys(a) && DistinctKeys(b) && |a| == |b|
    requires forall i | 0 <= i < |a| :: HasKey(b, a[i].key)
    ensures forall p | 0 <= p < |a| :: Sort(a)[p].key == Sort(b)[p].key
  {
    SortSorted(a);
    SortSorted(b);
    SameObjectIsInjection(a, b);
    SortKeys(a);
    SortKeys(b);
    SortedKeysUnique(Sort(a), Sort(b));
  }

  lemma DistinctMember(ms: seq<Member>, m: Member, n: Member)
    requires DistinctKeys(ms) && m in ms && n in ms && m.key == n.key
    ensures m == n
  {
  }

  /** Of two objects that are the same, the sorted forms match member by member. */
  lemma Aligned(a: seq<Member>, b: seq<Member>, p: nat) returns (m: Member, n: Member)
    requires DistinctKeys(a) && DistinctKeys(b) && Same(Obj(a), Obj(b)) && p < |a|
    ensures m == Sort(a)[p] && n == Sort(b)[p] && m in a && n in b
    ensures m.key == n.key && Same(m.value, n.value)
  {
    forall i | 0 <= i < |a| ensures HasKey(b, a[i].key) {
      assert HasSame(a[i], b);
    }
    SortedAlike(a, b);
    m, n := Sort(a)[p], Sort(b)[p];
    assert m in a && n in b;
    var i :| 0 <= i < |a| && a[i] == m;
    assert HasSame(a[i], b);
    var j :| 0 <= j < |b| && a[i].key == b[j].key && Same(a[i].value, b[j].value);
    DistinctMember(b, b[j], n);
  }

  lemma {:induction false} SameIsEqualNormal(v: Json, w: Json)
    requires WellFormed(v) && WellFormed(w)
    requires Same(v, w)
    ensures Normal(v) == Normal(w)
    decreases Height(v)
  {
    match v
    case Arr(items) =>
      forall i | 0 <= i < |items| ensures Normal(items[i]) == Normal(w.items[i]) {
        SameIsEqualNormal(items[i], w.items[i]);
      }
    case Obj(members) =>
      forall p | 0 <= p < |members| || 0 <= p < |w.members|
        ensures p < |members| && p < |w.members| && Normal(v).members[p] == Normal(w).members[p]
      {
        var m, n := Aligned(members, w.members, p);
        SameIsEqualNormal(m.value, n.value);
      }
      assert Normal(v).members == Normal(w).members;
    case _ =>
  }

  /** Two values have the same canonical text exactly when they are the same
      value with objects read as unordered maps. */
  lemma CanonicalInjective(v: Json, w: Json)
    requires WellFormed(v) && WellFormed(w) && AllFinite(v) && AllFinite(w)
    ensures Canonicalize(v).Some? && Canonicalize(w).Some?
    ensures Canonicalize(v) == Canonicalize(w) <==> Same(v, w)
  {
    CanonicalIsPrinted(v);
    CanonicalIsPrinted(w);
    if Canonicalize(v) == Canonicalize(w) {
      PrintParses(Normal(v), "", "");
      PrintParses(Normal(w), "", "");
      assert Print(Normal(v), "") + "" == Print(Normal(w), "") + "";
      EqualNormalIsSame(v, w);
    }
    if Same(v, w) {
      SameIsEqualNormal(v, w);
    }
  }

  /** The printer raises exactly on the values that hold a NaN or an infinity. */
  lemma CanonicalFails(v: Json)
    ensures Canonicalize(v).None? <==> !AllFinite(v)
  {
    CanonicalIsPrinted(v);
  }
}
