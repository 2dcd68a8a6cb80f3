/** The two orders of an object's keys: by code point, as the canonical form has
    them, and by UTF-16 code unit. */
module KeyOrder {
  import opened JsonValues
  import opened Canonical

  /** The UTF-16 code units of one character (section 2.1 of RFC 2781). */
  function Units(c: char): (u: seq<nat>)
    ensures 1 <= |u| <= 2 && (|u| == 2 <==> Astral(c))
  {
    var n := c as int;
    if n < 0x10000 then [n] else [0xD800 + (n - 0x10000) / 0x400, 0xDC00 + (n - 0x10000) % 0x400]
  }

  function Utf16(s: string): seq<nat> {
    if s == [] then [] else Units(s[0]) + Utf16(s[1..])
  }

  predicate UnitsBefore(a: seq<nat>, b: seq<nat>) {
    if b == [] then false
    else if a == [] then true
    else if a[0] == b[0] then UnitsBefore(a[1..], b[1..])
    else a[0] < b[0]
  }

  predicate Astral(c: char) {
    c as int >= 0x10000
  }

  /** From U+E000 to U+FFFF: above the surrogates, below the astral characters. */
  predicate High(c: char) {
    0xE000 <= c as int < 0x10000
  }

  /** Where the keys first differ, one is astral and the other high. */
  predicate Crossed(a: string, b: string) {
    && a != [] && b != []
    && if a[0] == b[0] then Crossed(a[1..], b[1..])
       else (High(a[0]) && Astral(b[0])) || (Astral(a[0]) && High(b[0]))
  }

  lemma {:induction false} UnitsBeforeShared(u: seq<nat>, a: seq<nat>, b: seq<nat>)
    ensures UnitsBefore(u + a, u + b) == UnitsBefore(a, b)
  {
    if u == [] {
      assert u + a == a && u + b == b;
    } else {
      assert (u + a)[1..] == u[1..] + a && (u + b)[1..] == u[1..] + b;
      UnitsBeforeShared(u[1..], a, b);
    }
  }

  /** Two characters that differ: how their units compare decides. */
  lemma CharOrder(c: char, d: char, a: seq<nat>, b: seq<nat>)
    requires c != d
    ensures UnitsBefore(Units(c) + a, Units(d) + b) <==> (c < d) != ((High(c) && Astral(d)) || (Astral(c) && High(d)))
  {
    var u, v := Units(c) + a, Units(d) + b;
    if Astral(c) && Astral(d) && u[0] == v[0] {
      assert u[1] != v[1];
      assert u[1..][0] == u[1] && v[1..][0] == v[1];
    }
  }

  /** The orders differ on two keys exactly if the keys cross. */
  lemma {:induction false} OrdersAgreeIff(a: string, b: string)
    ensures (Before(a, b) <==> UnitsBefore(Utf16(a), Utf16(b))) <==> !Crossed(a, b)
  {
    if a != [] && b != [] {
      if a[0] == b[0] {
        UnitsBeforeShared(Units(a[0]), Utf16(a[1..]), Utf16(b[1..]));
        OrdersAgreeIff(a[1..], b[1..]);
      } else {
        CharOrder(a[0], b[0], Utf16(a[1..]), Utf16(b[1..]));
      }
    }
  }

  lemma {:induction false} CrossedEither(a: string, b: string)
    ensures Crossed(a, b) == Crossed(b, a)
  {
    if a != [] && b != [] {
      CrossedEither(a[1..], b[1..]);
    }
  }

  /** Keys with no astral character cross no other such key. */
  lemma {:induction false} PlainNeverCross(a: string, b: string)
    requires forall c | c in a + b :: !Astral(c)
    ensures !Crossed(a, b)
  {
    if a != [] && b != [] {
      assert a[0] in a + b && b[0] in a + b;
      PlainNeverCross(a[1..], b[1..]);
    }
  }

  ghost predicate UnitSorted(ms: seq<Member>) {
    forall i, j | 0 <= i < j < |ms| :: UnitsBefore(Utf16(ms[i].key), Utf16(ms[j].key))
  }

  /** The canonical order of an object's keys is that of RFC 8785 exactly if no
      two of them cross. */
  lemma SortedAlikeIff(ms: seq<Member>)
    requires DistinctKeys(ms)
    ensures UnitSorted(Sort(ms)) <==> forall m, n | m in ms && n in ms :: !Crossed(m.key, n.key)
  {
    hide Before, UnitsBefore, Crossed, Sort;
    var sorted := Sort(ms);
    SortSorted(ms);
    forall i, j | 0 <= i < j < |sorted|
      ensures UnitsBefore(Utf16(sorted[i].key), Utf16(sorted[j].key)) <==> !Crossed(sorted[i].key, sorted[j].key)
    {
      OrdersAgreeIff(sorted[i].key, sorted[j].key);
    }
    if UnitSorted(sorted) {
      forall m, n | m in ms && n in ms ensures !Crossed(m.key, n.key) {
        var i, j := Position(sorted, m), Position(sorted, n);
        if i == j {
          NeverCrossesItself(m.key);
        } else if i > j {
          CrossedEither(m.key, n.key);
        }
      }
    }
  }

  lemma {:induction false} NeverCrossesItself(a: string)
    ensures !Crossed(a, a)
  {
    if a != [] {
      NeverCrossesItself(a[1..]);
    }
  }

  ghost function Position(ms: seq<Member>, m: Member): (i: nat)
    requires m in ms
    ensures i < |ms| && ms[i] == m
  {
    var i :| 0 <= i < |ms| && ms[i] == m;
    i
  }

  /** Two keys the orders put differently. */
  lemma KeysCross(a: Json, b: Json)
    ensures var ms := [Member("\U{10000}", a), Member("\U{FB01}", b)];
            DistinctKeys(ms) && Sort(ms) == [ms[1], ms[0]] && !UnitSorted(Sort(ms))
  {
    var k, l := "\U{10000}", "\U{FB01}";
    var ms := [Member(k, a), Member(l, b)];
    assert k[0] as int == 0x10000 && l[0] as int == 0xFB01;
    assert Crossed(l, k) && Before(l, k) && !Before(k, l);
    OrdersAgreeIff(l, k);
    assert ms[..1] == [ms[0]] && [ms[0]][..0] == [];
    assert Sort([ms[0]]) == [ms[0]];
    assert Insert(ms[1], [ms[0]]) == [ms[1], ms[0]];
    var sorted := Sort(ms);
    assert sorted[0].key == l && sorted[1].key == k;
  }
}
