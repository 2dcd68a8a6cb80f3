/** One browse: the references it has minted and its page cursors. */
module BrowseSessions {
  import opened Wrappers

  const MAX_DIRECTORY_ENTRIES := 200
  const MAX_SCANNED_ENTRIES := 1000
  const MAX_REFS_PER_BROWSE := 1200
  const MAX_CURSORS_PER_BROWSE := 32

  // Tokens are drawn from a counter: what matters is that none is drawn twice.
  type Token = nat
  type Path = string

  datatype Target = Target(path: Path, parent: Option<Token>)

  datatype Cursor = Cursor(token: Token, ref: Token, offset: nat)

  // One entry of a scanned folder: the path it resolves to, or None for what
  // is not a directory that can be browsed; and where its name sorts.
  datatype Entry = Entry(child: Option<Path>, rank: int)

  datatype Found = Found(path: Path, rank: int)

  datatype Listed = Listed(ref: Token, path: Path)

  // What the file system answers: the path a folder resolves to, if it can be
  // browsed at all, and its entries, unless scanning it raises.
  datatype Disk = Disk(canonical: Path -> Option<Path>, scan: Path -> Option<seq<Entry>>)

  // One page of a folder, or why there is none.
  datatype Turned =
    | NoSuchPage
    | NotReadable
    | Page(current: Path, entries: seq<Listed>, nextCursor: Option<Token>, truncated: bool)

  // ---- the folder as it is scanned ----

  function Seen(scan: seq<Entry>): (r: seq<Found>)
    ensures |r| <= |scan|
  {
    if scan == [] then []
    else
      var last := scan[|scan| - 1];
      Seen(scan[..|scan| - 1]) + if last.child.Some? then [Found(last.child.value, last.rank)] else []
  }

  /** What the scan budget lets be looked at. */
  function Budgeted(scan: seq<Entry>): seq<Entry> {
    if |scan| <= MAX_SCANNED_ENTRIES then scan else scan[..MAX_SCANNED_ENTRIES]
  }

  predicate Sorted(found: seq<Found>) {
    forall i, j | 0 <= i < j < |found| :: found[i].rank <= found[j].rank
  }

  /** A stable sort by rank. */
  function Insert(found: seq<Found>, one: Found): seq<Found> {
    if found == [] || found[|found| - 1].rank <= one.rank then found + [one]
    else Insert(found[..|found| - 1], one) + [found[|found| - 1]]
  }

  function Sort(found: seq<Found>): seq<Found> {
    if found == [] then [] else Insert(Sort(found[..|found| - 1]), found[|found| - 1])
  }

  function Paths(found: seq<Found>): seq<Path> {
    seq(|found|, i requires 0 <= i < |found| => found[i].path)
  }

  /** The folder's candidates in the order they are paged. */
  function Candidates(scan: seq<Entry>): seq<Path> {
    Paths(Sort(Seen(Budgeted(scan))))
  }

  lemma {:induction false} InsertKeeps(found: seq<Found>, one: Found)
    ensures multiset(Insert(found, one)) == multiset(found) + multiset{one}
    ensures forall f | f in Insert(found, one) :: f == one || f in found
  {
    if found != [] && found[|found| - 1].rank > one.rank {
      var front, last := found[..|found| - 1], found[|found| - 1];
      InsertKeeps(front, one);
      assert found == front + [last];
    }
  }

  lemma SortedAdd(found: seq<Found>, last: Found)
    requires Sorted(found) && forall f | f in found :: f.rank <= last.rank
    ensures Sorted(found + [last])
  {
  }

  lemma {:induction false} InsertSorts(found: seq<Found>, one: Found)
    requires Sorted(found)
    ensures Sorted(Insert(found, one))
  {
    if found != [] {
      var front, last := found[..|found| - 1], found[|found| - 1];
      assert Sorted(front) && forall f | f in front :: f.rank <= last.rank;
      hide Sorted;
      if last.rank > one.rank {
        InsertSorts(front, one);
        InsertKeeps(front, one);
        SortedAdd(Insert(front, one), last);
      } else {
        SortedAdd(front, last);
        assert found == front + [last];
        SortedAdd(found, one);
      }
    }
  }

  /** Sorting orders by rank and neither loses nor adds a candidate. */
  lemma {:induction false} SortSorts(found: seq<Found>)
    ensures Sorted(Sort(found)) && multiset(Sort(found)) == multiset(found)
  {
    hide Insert;
    if found != [] {
      var front := found[..|found| - 1];
      SortSorts(front);
      InsertSorts(Sort(front), found[|found| - 1]);
      InsertKeeps(Sort(front), found[|found| - 1]);
      assert found == front + [found[|found| - 1]];
    }
  }

  lemma CandidatesBounded(scan: seq<Entry>)
    ensures |Candidates(scan)| <= MAX_SCANNED_ENTRIES
  {
    var found := Seen(Budgeted(scan));
    SortSorts(found);
    assert |Sort(found)| == |multiset(Sort(found))| == |multiset(found)| == |found|;
  }

  /** Among the first 1000 entries scanned, each that is a folder to browse, and
      nothing else. */
  ghost predicate FoundIn(found: seq<Found>, from: seq<nat>, scan: seq<Entry>, n: nat)
    requires n <= |scan|
  {
    && |found| == |from|
    && (forall k | 0 <= k < |from| :: from[k] < n && scan[from[k]].child == Some(found[k].path) && scan[from[k]].rank == found[k].rank)
    && (forall j, k | 0 <= j < k < |from| :: from[j] < from[k])
    && (forall i: nat | i < n && scan[i].child.Some? :: i in from)
  }

  lemma FoundNone(found: seq<Found>, from: seq<nat>, scan: seq<Entry>, n: nat)
    requires n < |scan| && FoundIn(found, from, scan, n) && scan[n].child.None?
    ensures FoundIn(found, from, scan, n + 1)
  {
  }

  lemma FoundOne(found: seq<Found>, from: seq<nat>, scan: seq<Entry>, n: nat)
    requires n < |scan| && FoundIn(found, from, scan, n) && scan[n].child.Some?
    ensures FoundIn(found + [Found(scan[n].child.value, scan[n].rank)], from + [n], scan, n + 1)
  {
    var more := from + [n];
    assert more[|from|] == n;
    forall i: nat | i < n + 1 && scan[i].child.Some? ensures i in more {
      if i < n {
        assert i in from;
      }
    }
  }

  lemma SeenNext(scan: seq<Entry>, n: nat)
    requires n < |scan|
    ensures Seen(scan[..n + 1]) ==
            if scan[n].child.Some? then Seen(scan[..n]) + [Found(scan[n].child.value, scan[n].rank)] else Seen(scan[..n])
  {
    assert scan[..n + 1][..n] == scan[..n] && scan[..n + 1][n] == scan[n];
  }

  lemma SeenNothing(scan: seq<Entry>)
    ensures FoundIn(Seen(scan[..0]), [], scan, 0)
  {
  }

  lemma {:induction false} SeenAre(scan: seq<Entry>, n: nat) returns (from: seq<nat>)
    requires n <= |scan|
    ensures FoundIn(Seen(scan[..n]), from, scan, n)
  {
    hide FoundIn, Seen;
    if n == 0 {
      from := [];
      SeenNothing(scan);
    } else {
      from := SeenAre(scan, n - 1);
      SeenNext(scan, n - 1);
      if scan[n - 1].child.Some? {
        FoundOne(Seen(scan[..n - 1]), from, scan, n - 1);
        from := from + [n - 1];
      } else {
        FoundNone(Seen(scan[..n - 1]), from, scan, n - 1);
      }
    }
  }

  /** The candidates are those, in the order of their names. */
  lemma CandidatesAre(scan: seq<Entry>) returns (found: seq<Found>, from: seq<nat>, sorted: seq<Found>)
    ensures FoundIn(found, from, scan, if |scan| <= 1000 then |scan| else 1000)
    ensures multiset(sorted) == multiset(found) && Sorted(sorted)
    ensures |Candidates(scan)| == |sorted| && forall k | 0 <= k < |sorted| :: Candidates(scan)[k] == sorted[k].path
  {
    hide FoundIn, Seen, Sort, Sorted;
    var n := if |scan| <= 1000 then |scan| else 1000;
    found, sorted := Seen(scan[..n]), Sort(Seen(scan[..n]));
    from := SeenAre(scan, n);
    SortSorts(found);
    assert scan[..|scan|] == scan;
    assert Budgeted(scan) == scan[..n];
  }

  // ---- the reference table ----

  ghost predicate TableOk(refs: map<Token, Target>, byTarget: map<Target, Token>, next: Token) {
    && |refs| <= MAX_REFS_PER_BROWSE
    && (forall r | r in refs :: r < next && refs[r] in byTarget && byTarget[refs[r]] == r)
    && (forall t | t in byTarget :: byTarget[t] in refs && refs[byTarget[t]] == t)
    && (forall r | r in refs && refs[r].parent.Some? :: refs[r].parent.value in refs && refs[r].parent.value < r)
  }

  ghost predicate CursorsOk(cursors: seq<Cursor>, refs: map<Token, Target>, next: Token) {
    && |cursors| <= MAX_CURSORS_PER_BROWSE
    && (forall c | c in cursors :: c.token < next && c.ref in refs && c.offset > 0)
    && (forall i, j | 0 <= i < j < |cursors| :: cursors[i].token != cursors[j].token)
    && (forall i, j | 0 <= i < j < |cursors| ::
          cursors[i].ref != cursors[j].ref || cursors[i].offset != cursors[j].offset)
  }

  /** The references from `r` up to the root it was reached from. */
  ghost function Ancestry(refs: map<Token, Target>, byTarget: map<Target, Token>, next: Token, r: Token): seq<Token>
    requires TableOk(refs, byTarget, next) && r in refs
  {
    [r] + if refs[r].parent.None? then [] else Ancestry(refs, byTarget, next, refs[r].parent.value)
  }

  /** Every chain of parents is made of live references, repeats none, and ends
      at a root. */
  lemma {:induction false} ChainsEndAtRoots(refs: map<Token, Target>, byTarget: map<Target, Token>, next: Token, r: Token)
    requires TableOk(refs, byTarget, next) && r in refs
    ensures var chain := Ancestry(refs, byTarget, next, r);
            && (forall i | 0 <= i < |chain| :: chain[i] in refs && chain[i] <= r)
            && (forall i, j | 0 <= i < j < |chain| :: chain[i] > chain[j])
            && refs[chain[|chain| - 1]].parent == None
  {
    if refs[r].parent.Some? {
      ChainsEndAtRoots(refs, byTarget, next, refs[r].parent.value);
    }
  }

  lemma {:induction false} InsertSize<K, V>(m: map<K, V>, k: K, v: V)
    ensures |m[k := v]| == |m| + if k in m then 0 else 1
  {
    assert m[k := v].Keys == m.Keys + {k};
  }

  /** `m` still holds all that `old_` held. */
  ghost predicate Extends(old_: map<Token, Target>, m: map<Token, Target>) {
    forall r | r in old_ :: r in m && m[r] == old_[r]
  }

  /** What a browse may become: it still holds every reference, and a cursor it
      holds is an old one or new. */
  ghost predicate Grows(refs0: map<Token, Target>, cursors0: seq<Cursor>, next: Token, refs: map<Token, Target>,
                        cursors: seq<Cursor>)
  {
    Extends(refs0, refs) && forall c | c in cursors :: c in cursors0 || c.token >= next
  }

  lemma GrowsOn(refs0: map<Token, Target>, cursors0: seq<Cursor>, next0: Token,
                refs1: map<Token, Target>, cursors1: seq<Cursor>, next1: Token,
                refs2: map<Token, Target>, cursors2: seq<Cursor>)
    requires next0 <= next1 && Grows(refs0, cursors0, next0, refs1, cursors1) && Grows(refs1, cursors1, next1, refs2, cursors2)
    ensures Grows(refs0, cursors0, next0, refs2, cursors2)
  {
  }

  function Drop(cursors: seq<Cursor>, i: nat): seq<Cursor>
    requires i < |cursors|
  {
    cursors[..i] + cursors[i + 1..]
  }

  predicate IsPage(c: Cursor, ref: Token, offset: nat) {
    c.ref == ref && c.offset == offset
  }

  /** The cursor with that token is now the newest, the others as they were. */
  ghost predicate Renewed(before: seq<Cursor>, after: seq<Cursor>, token: Token) {
    exists i :: 0 <= i < |before| && before[i].token == token && after == Drop(before, i) + [before[i]]
  }

  lemma RenewedSame(before: seq<Cursor>, after: seq<Cursor>, token: Token)
    requires Renewed(before, after, token)
    ensures multiset(after) == multiset(before) && forall c | c in after :: c in before
  {
    var i :| 0 <= i < |before| && before[i].token == token && after == Drop(before, i) + [before[i]];
    MovedSame(before, i);
    forall c | c in after ensures c in before {
      assert c in multiset(after);
    }
  }

  ghost predicate HasPage(cursors: seq<Cursor>, ref: Token, offset: nat) {
    exists c | c in cursors :: IsPage(c, ref, offset)
  }

  lemma MovedIndex(cursors: seq<Cursor>, i: nat, k: nat) returns (j: nat)
    requires i < |cursors| && k < |cursors|
    ensures j == (if k < i then k else if k < |cursors| - 1 then k + 1 else i)
    ensures (Drop(cursors, i) + [cursors[i]])[k] == cursors[j]
  {
    j := if k < i then k else if k < |cursors| - 1 then k + 1 else i;
  }

  lemma MovedToEnd(cursors: seq<Cursor>, i: nat, refs: map<Token, Target>, next: Token)
    requires CursorsOk(cursors, refs, next) && i < |cursors|
    ensures CursorsOk(Drop(cursors, i) + [cursors[i]], refs, next)
  {
    var moved := Drop(cursors, i) + [cursors[i]];
    MovedSame(cursors, i);
    hide Drop;
    forall j, k | 0 <= j < k < |cursors|
      ensures moved[j].token != moved[k].token
      ensures moved[j].ref != moved[k].ref || moved[j].offset != moved[k].offset
    {
      var j' := MovedIndex(cursors, i, j);
      var k' := MovedIndex(cursors, i, k);
      assert if j' < k' then cursors[j'].token != cursors[k'].token else cursors[k'].token != cursors[j'].token;
    }
    forall c | c in moved ensures c in cursors {
      var k :| 0 <= k < |moved| && moved[k] == c;
      var k' := MovedIndex(cursors, i, k);
    }
  }

  lemma MovedSame(cursors: seq<Cursor>, i: nat)
    requires i < |cursors|
    ensures |Drop(cursors, i) + [cursors[i]]| == |cursors|
    ensures multiset(Drop(cursors, i) + [cursors[i]]) == multiset(cursors)
  {
    assert cursors == cursors[..i] + [cursors[i]] + cursors[i + 1..];
  }

  lemma OneToken(cursors: seq<Cursor>, i: nat, refs: map<Token, Target>, next: Token)
    requires CursorsOk(cursors, refs, next) && i < |cursors|
    ensures forall c | c in cursors && c.token == cursors[i].token :: c == cursors[i]
  {
    forall c | c in cursors && c.token == cursors[i].token ensures c == cursors[i] {
      var k :| 0 <= k < |cursors| && cursors[k] == c;
    }
  }

  lemma CursorsDropped(cursors: seq<Cursor>, refs: map<Token, Target>, next: Token)
    requires CursorsOk(cursors, refs, next) && cursors != []
    ensures CursorsOk(cursors[1..], refs, next)
  {
    assert forall c | c in cursors[1..] :: c in cursors;
  }

  lemma AtMostFull(cursors: seq<Cursor>, refs: map<Token, Target>, next: Token)
    requires CursorsOk(cursors, refs, next)
    ensures |cursors| <= MAX_CURSORS_PER_BROWSE
  {
  }

  lemma CursorAdded(cursors: seq<Cursor>, c: Cursor, refs: map<Token, Target>, next: Token)
    requires CursorsOk(cursors, refs, next) && |cursors| < MAX_CURSORS_PER_BROWSE
    requires c.token == next && c.ref in refs && c.offset > 0 && !HasPage(cursors, c.ref, c.offset)
    ensures CursorsOk(cursors + [c], refs, next + 1)
  {
    forall i | 0 <= i < |cursors| ensures !IsPage(cursors[i], c.ref, c.offset) && cursors[i].token < next {
      assert cursors[i] in cursors;
    }
  }

  lemma TableLater(refs: map<Token, Target>, byTarget: map<Target, Token>, next: Token, later: Token)
    requires TableOk(refs, byTarget, next) && next <= later
    ensures TableOk(refs, byTarget, later)
  {
  }

  lemma CursorsLater(cursors: seq<Cursor>, refs: map<Token, Target>, next: Token, more: map<Token, Target>, later: Token)
    requires CursorsOk(cursors, refs, next) && next <= later && forall r | r in refs :: r in more
    ensures CursorsOk(cursors, more, later)
  {
  }

  lemma TableAdded(refs: map<Token, Target>, byTarget: map<Target, Token>, next: Token, target: Target)
    requires TableOk(refs, byTarget, next) && target !in byTarget && |refs| < MAX_REFS_PER_BROWSE
    requires target.parent.Some? ==> target.parent.value in refs
    ensures TableOk(refs[next := target], byTarget[target := next], next + 1)
  {
    InsertSize(refs, next, target);
  }

  /** Where a page starts: at the beginning, or where its cursor says. */
  ghost predicate StartsAt(cursors: seq<Cursor>, cursor: Option<Token>, ref: Token, offset: nat) {
    if cursor.None? then offset == 0 else Cursor(cursor.value, ref, offset) in cursors
  }

  /** No page can be turned to: the reference is unknown, or the cursor is, or
      it belongs to another folder. */
  ghost predicate Unknown(refs: map<Token, Target>, cursors: seq<Cursor>, ref: Token, cursor: Option<Token>) {
    ref !in refs || forall offset: nat :: !StartsAt(cursors, cursor, ref, offset)
  }

  class BrowseSession {
    const expiresAt: int
    var refs: map<Token, Target>
    var refByTarget: map<Target, Token>
    // Oldest first.
    var cursors: seq<Cursor>

    ghost predicate Valid(next: Token)
      reads this
    {
      TableOk(refs, refByTarget, next) && CursorsOk(cursors, refs, next)
    }

    constructor (expiresAt: int)
      ensures refs == map[] && refByTarget == map[] && cursors == [] && this.expiresAt == expiresAt
    {
      this.expiresAt, refs, refByTarget, cursors := expiresAt, map[], map[], [];
    }

    /** The reference for `target`: the one already minted, or a new one. */
    method AddRef(target: Target, next: Token) returns (ref: Token, after: Token)
      requires Valid(next) && (target in refByTarget || |refs| < MAX_REFS_PER_BROWSE)
      requires target.parent.Some? ==> target.parent.value in refs
      modifies this`refs, this`refByTarget
      ensures Valid(after) && next <= after
      ensures ref in refs && refs[ref] == target
      ensures Extends(old(refs), refs)
      ensures refs == if target in old(refByTarget) then old(refs) else old(refs)[ref := target]
      ensures target in old(refByTarget) ==> ref == old(refByTarget)[target]
      ensures target !in old(refByTarget) ==> ref !in old(refs)
      ensures |refs| <= |old(refs)| + 1
    {
      if target in refByTarget {
        return refByTarget[target], next;
      }
      ref, after := next, next + 1;
      InsertSize(refs, ref, target);
      TableAdded(refs, refByTarget, next, target);
      CursorsLater(cursors, refs, next, refs[ref := target], after);
      hide TableOk, CursorsOk;
      refs := refs[ref := target];
      refByTarget := refByTarget[target := ref];
    }

    lemma Later(next: Token, later: Token)
      requires Valid(next) && next <= later
      ensures Valid(later)
    {
    }

    /** The references of the safe roots, in order. */
    method AddRoots(roots: seq<Path>, next: Token) returns (listed: seq<Listed>, after: Token)
      requires refs == map[] && refByTarget == map[] && cursors == [] && |roots| <= MAX_DIRECTORY_ENTRIES
      modifies this
      ensures Valid(after) && next <= after
      ensures |listed| == |roots|
      ensures forall k | 0 <= k < |roots| ::
                listed[k].path == roots[k] && listed[k].ref in refs && refs[listed[k].ref] == Target(roots[k], None)
    {
      listed, after := [], next;
      assert Valid(after);
      hide TableOk, CursorsOk;
      for i := 0 to |roots|
        invariant Valid(after) && next <= after && |refs| <= i && |listed| == i
        invariant forall k | 0 <= k < i ::
                    listed[k].path == roots[k] && listed[k].ref in refs && refs[listed[k].ref] == Target(roots[k], None)
      {
        var ref, drawn := AddRef(Target(roots[i], None), after);
        after := drawn;
        listed := listed + [Listed(ref, roots[i])];
      }
    }

    /** A cursor for that page: the one already handed out, now the newest, or a
        new one for which the oldest may be dropped. */
    method AddCursor(ref: Token, offset: nat, next: Token) returns (token: Token, after: Token)
      requires Valid(next) && ref in refs && offset > 0
      modifies this`cursors
      ensures Valid(after) && next <= after
      ensures cursors != [] && cursors[|cursors| - 1] == Cursor(token, ref, offset)
      ensures HasPage(old(cursors), ref, offset) ==> Renewed(old(cursors), cursors, token)
      ensures !HasPage(old(cursors), ref, offset) ==>
                token >= next
                && cursors[..|cursors| - 1] == old(cursors)[(if |old(cursors)| == MAX_CURSORS_PER_BROWSE then 1 else 0)..]
    {
      hide TableOk, CursorsOk;
      for i := 0 to |cursors|
        invariant cursors == old(cursors)
        invariant forall k | 0 <= k < i :: !IsPage(cursors[k], ref, offset)
      {
        if IsPage(cursors[i], ref, offset) {
          token, after := cursors[i].token, next;
          assert cursors[i] in cursors;
          MovedToEnd(cursors, i, refs, next);
          cursors := Drop(cursors, i) + [cursors[i]];
          return;
        }
      }
      assert !HasPage(cursors, ref, offset);
      AtMostFull(cursors, refs, next);
      token, after := next, next + 1;
      while |cursors| >= MAX_CURSORS_PER_BROWSE
        invariant CursorsOk(cursors, refs, next) && !HasPage(cursors, ref, offset)
        invariant cursors == old(cursors) || (|old(cursors)| == MAX_CURSORS_PER_BROWSE && cursors == old(cursors)[1..])
        decreases |cursors|
      {
        CursorsDropped(cursors, refs, next);
        assert forall c | c in cursors[1..] :: c in cursors;
        cursors := cursors[1..];
      }
      CursorAdded(cursors, Cursor(token, ref, offset), refs, next);
      TableLater(refs, refByTarget, next, after);
      cursors := cursors + [Cursor(token, ref, offset)];
    }

    /** Where the page of that cursor starts; the cursor is then the newest. */
    method UseCursor(cursor: Option<Token>, ref: Token, next: Token) returns (offset: Option<nat>)
      requires Valid(next)
      modifies this`cursors
      ensures Valid(next)
      ensures if cursor.Some? && offset.Some? then Renewed(old(cursors), cursors, cursor.value) else cursors == old(cursors)
      ensures offset.Some? ==> StartsAt(old(cursors), cursor, ref, offset.value)
      ensures offset.None? ==> forall o: nat :: !StartsAt(old(cursors), cursor, ref, o)
    {
      if cursor.None? {
        return Some(0);
      }
      hide TableOk, CursorsOk;
      for i := 0 to |cursors|
        invariant cursors == old(cursors)
        invariant forall k | 0 <= k < i :: cursors[k].token != cursor.value
      {
        if cursors[i].token == cursor.value {
          OneToken(cursors, i, refs, next);
          if cursors[i].ref != ref {
            return None;
          }
          offset := Some(cursors[i].offset);
          MovedToEnd(cursors, i, refs, next);
          cursors := Drop(cursors, i) + [cursors[i]];
          return;
        }
      }
      return None;
    }

    /** list_directories below a reference. */
    method Turn(ref: Token, cursor: Option<Token>, disk: Disk, next: Token) returns (page: Turned, after: Token)
      requires Valid(next)
      modifies this
      ensures Valid(after) && next <= after
      ensures page.NoSuchPage? <==> Unknown(old(refs), old(cursors), ref, cursor)
      ensures Grows(old(refs), old(cursors), next, refs, cursors)
      ensures page.NoSuchPage? ==> refs == old(refs) && cursors == old(cursors)
      ensures !page.NoSuchPage? ==> ref in old(refs)
      ensures page.NotReadable? ==> Unreadable(disk, old(refs), ref)
      ensures page.Page? ==> TurnedTo(page, disk, old(refs), old(cursors), ref, cursor, refs, cursors)
    {
      hide TableOk, CursorsOk, PageOf, StartsAt, Renewed;
      after := next;
      if ref !in refs {
        return NoSuchPage, after;
      }
      var offset := UseCursor(cursor, ref, next);
      if cursor.Some? && offset.Some? {
        RenewedSame(old(cursors), cursors, cursor.value);
      }
      ghost var used := cursors;
      if offset.None? {
        return NoSuchPage, after;
      }
      var current := disk.canonical(refs[ref].path);
      if current.None? {
        return NotReadable, after;
      }
      var entries, truncated, nextOffset, drawn := ListChildren(disk.scan(current.value), ref, offset.value, next);
      after := drawn;
      if entries.None? {
        return NotReadable, after;
      }
      page := Page(current.value, entries.value, None, truncated);
      if nextOffset.Some? {
        NextIsLater(entries.value, truncated, nextOffset, disk.scan(current.value).value, offset.value, refs, ref);
        var token, last := AddCursor(ref, nextOffset.value, after);
        if HasPage(used, ref, nextOffset.value) {
          RenewedSame(used, cursors, token);
        } else {
          OneNewCursor(used, cursors);
        }
        after := last;
        page := page.(nextCursor := Some(token));
      }
    }

    /** The page of `ref`'s folder that starts at `offset`. */
    method ListChildren(scan: Option<seq<Entry>>, ref: Token, offset: nat, next: Token)
      returns (entries: Option<seq<Listed>>, truncated: bool, nextOffset: Option<nat>, after: Token)
      requires Valid(next) && ref in refs
      modifies this`refs, this`refByTarget
      ensures Valid(after) && next <= after
      ensures scan.None? <==> entries.None?
      ensures Extends(old(refs), refs)
      ensures scan.Some? ==>
                PageOf(entries.value, truncated, nextOffset, scan.value, offset, refs, ref)
    {
      after := next;
      if scan.None? {
        return None, false, None, after;
      }
      truncated := |scan.value| > MAX_SCANNED_ENTRIES;
      var candidates := Candidates(scan.value);
      var page := Slice(candidates, offset);
      nextOffset := if |candidates| > offset + MAX_DIRECTORY_ENTRIES then Some(offset + MAX_DIRECTORY_ENTRIES) else None;
      var listed: seq<Listed> := [];
      hide TableOk, CursorsOk, Candidates, Slice, PageOf;
      for i := 0 to |page|
        invariant Valid(after) && next <= after && ref in refs
        invariant Extends(old(refs), refs)
        invariant |listed| == i && AllListed(listed, page, refs, ref)
      {
        var target := Target(page[i], Some(ref));
        TableFull(refs, refByTarget, after, target);
        if target !in refByTarget && |refs| >= MAX_REFS_PER_BROWSE {
          PageCut(listed, scan.value, offset, refs, ref);
          return Some(listed), true, None, after;
        }
        ghost var before := refs;
        var minted, drawn := AddRef(target, after);
        after := drawn;
        ListedMore(listed, page, before, refs, ref, Listed(minted, page[i]));
        listed := listed + [Listed(minted, page[i])];
      }
      entries := Some(listed);
      PageWhole(listed, scan.value, offset, refs, ref);
    }
  }

  ghost predicate Unreadable(disk: Disk, refs: map<Token, Target>, ref: Token) {
    ref in refs
    && (disk.canonical(refs[ref].path).None? || disk.scan(disk.canonical(refs[ref].path).value).None?)
  }

  /** A page is the slice of the folder its cursor stands for, and its own
      cursor stands for the next. */
  ghost predicate TurnedTo(page: Turned, disk: Disk, refs0: map<Token, Target>, cursors0: seq<Cursor>, ref: Token,
                           cursor: Option<Token>, refs: map<Token, Target>, cursors: seq<Cursor>)
    requires page.Page?
  {
    && ref in refs0 && Extends(refs0, refs)
    && disk.canonical(refs0[ref].path) == Some(page.current) && disk.scan(page.current).Some?
    && exists offset: nat, nextOffset: Option<nat> ::
         && StartsAt(cursors0, cursor, ref, offset)
         && PageOf(page.entries, page.truncated, nextOffset, disk.scan(page.current).value, offset, refs, ref)
         && (nextOffset.None? <==> page.nextCursor.None?)
         && (nextOffset.Some? ==> Cursor(page.nextCursor.value, ref, nextOffset.value) in cursors)
  }

  lemma NextIsLater(entries: seq<Listed>, truncated: bool, nextOffset: Option<nat>, scan: seq<Entry>,
                    offset: nat, refs: map<Token, Target>, ref: Token)
    requires PageOf(entries, truncated, nextOffset, scan, offset, refs, ref) && nextOffset.Some?
    ensures nextOffset.value > 0
  {
  }

  lemma OneNewCursor(before: seq<Cursor>, after: seq<Cursor>)
    requires after != [] && exists k :: 0 <= k <= |before| && after[..|after| - 1] == before[k..]
    ensures forall c | c in after :: c in before || c == after[|after| - 1]
  {
    var k :| 0 <= k <= |before| && after[..|after| - 1] == before[k..];
    assert after == before[k..] + [after[|after| - 1]];
  }

  lemma PageCut(listed: seq<Listed>, scan: seq<Entry>, offset: nat, refs: map<Token, Target>, ref: Token)
    requires AllListed(listed, Slice(Candidates(scan), offset), refs, ref) && |listed| < |Slice(Candidates(scan), offset)|
    requires NoRoomFor(Target(Slice(Candidates(scan), offset)[|listed|], Some(ref)), refs)
    ensures PageOf(listed, true, None, scan, offset, refs, ref)
  {
    hide Candidates;
  }

  lemma PageWhole(listed: seq<Listed>, scan: seq<Entry>, offset: nat, refs: map<Token, Target>, ref: Token)
    requires AllListed(listed, Slice(Candidates(scan), offset), refs, ref)
    requires |listed| == |Slice(Candidates(scan), offset)|
    ensures PageOf(listed, |scan| > MAX_SCANNED_ENTRIES,
                   if |Candidates(scan)| > offset + MAX_DIRECTORY_ENTRIES then Some(offset + MAX_DIRECTORY_ENTRIES) else None,
                   scan, offset, refs, ref)
  {
    hide Candidates;
  }

  /** candidates[offset : offset + MAX_DIRECTORY_ENTRIES], clamped as slices are. */
  function Slice(candidates: seq<Path>, offset: nat): (page: seq<Path>)
    ensures |page| <= MAX_DIRECTORY_ENTRIES
  {
    if offset >= |candidates| then []
    else if offset + MAX_DIRECTORY_ENTRIES >= |candidates| then candidates[offset..]
    else candidates[offset..offset + MAX_DIRECTORY_ENTRIES]
  }

  ghost predicate AllListed(listed: seq<Listed>, page: seq<Path>, refs: map<Token, Target>, ref: Token) {
    |listed| <= |page|
    && forall k | 0 <= k < |listed| ::
         listed[k].path == page[k] && listed[k].ref in refs && refs[listed[k].ref] == Target(page[k], Some(ref))
  }

  lemma ListedMore(listed: seq<Listed>, page: seq<Path>, refs: map<Token, Target>, refs': map<Token, Target>, ref: Token, one: Listed)
    requires AllListed(listed, page, refs, ref) && |listed| < |page| && Extends(refs, refs')
    requires one.path == page[|listed|] && one.ref in refs' && refs'[one.ref] == Target(one.path, Some(ref))
    ensures AllListed(listed + [one], page, refs', ref)
  {
  }

  /** The budget is spent and `target` is not among what it was spent on. */
  ghost predicate NoRoomFor(target: Target, refs: map<Token, Target>) {
    |refs| == MAX_REFS_PER_BROWSE && forall r | r in refs :: refs[r] != target
  }

  lemma TableFull(refs: map<Token, Target>, byTarget: map<Target, Token>, next: Token, target: Target)
    requires TableOk(refs, byTarget, next)
    ensures |refs| <= MAX_REFS_PER_BROWSE
    ensures target !in byTarget && |refs| >= MAX_REFS_PER_BROWSE ==> NoRoomFor(target, refs)
  {
  }

  /** What a page holds: the candidates from `offset` on, each with its reference,
      but for the first that has none once the reference budget is spent, and
      what comes after it; whether something is left out, now or by the scan
      budget; and where the next page starts, if there is one. */
  ghost predicate PageOf(entries: seq<Listed>, truncated: bool, nextOffset: Option<nat>, scan: seq<Entry>,
                         offset: nat, refs: map<Token, Target>, ref: Token)
  {
    var all := Candidates(scan);
    var page := Slice(all, offset);
    && AllListed(entries, page, refs, ref)
    && (|entries| < |page| ==> NoRoomFor(Target(page[|entries|], Some(ref)), refs))
    && (truncated <==> |scan| > MAX_SCANNED_ENTRIES || |entries| < |page|)
    && nextOffset == (if |entries| == |page| && |all| > offset + MAX_DIRECTORY_ENTRIES
                      then Some(offset + MAX_DIRECTORY_ENTRIES) else None)
  }

  /** The same page of the same folder, listed again whatever references were
      minted in between, is the same. */
  lemma SamePage(entries1: seq<Listed>, truncated1: bool, next1: Option<nat>, refs1: map<Token, Target>,
                 entries2: seq<Listed>, truncated2: bool, next2: Option<nat>, refs2: map<Token, Target>,
                 byTarget: map<Target, Token>, next: Token, scan: seq<Entry>, offset: nat, ref: Token)
    requires PageOf(entries1, truncated1, next1, scan, offset, refs1, ref)
    requires PageOf(entries2, truncated2, next2, scan, offset, refs2, ref)
    requires Extends(refs1, refs2) && TableOk(refs2, byTarget, next)
    ensures entries1 == entries2 && truncated1 == truncated2 && next1 == next2
  {
    hide Candidates, Slice;
    var page := Slice(Candidates(scan), offset);
    ListsAsFar(entries1, refs1, entries2, refs2, page, ref);
    if |entries1| < |page| {
      FullStays(refs1, refs2);
      ListsAsFar(entries2, refs2, entries1, refs1, page, ref);
    }
    forall k | 0 <= k < |entries1| ensures entries1[k] == entries2[k] {
      var target := Target(page[k], Some(ref));
      assert refs2[entries1[k].ref] == target == refs2[entries2[k].ref];
      assert byTarget[target] == entries1[k].ref && byTarget[target] == entries2[k].ref;
    }
  }

  /** A listing that knows what another knew goes as far. */
  lemma ListsAsFar(entries1: seq<Listed>, refs1: map<Token, Target>, entries2: seq<Listed>, refs2: map<Token, Target>,
                   page: seq<Path>, ref: Token)
    requires AllListed(entries1, page, refs1, ref) && Extends(refs1, refs2)
    requires |entries2| < |page| ==> NoRoomFor(Target(page[|entries2|], Some(ref)), refs2)
    ensures |entries1| <= |entries2| || |entries2| >= |page|
  {
    forall k | 0 <= k < |entries1| ensures entries1[k].ref in refs2 && refs2[entries1[k].ref] == Target(page[k], Some(ref)) {
      assert refs1[entries1[k].ref] == Target(page[k], Some(ref));
    }
  }

  /** A full table takes no more. */
  lemma FullStays(refs: map<Token, Target>, more: map<Token, Target>)
    requires Extends(refs, more) && |more| <= |refs|
    ensures Extends(more, refs)
  {
    SubsetOfSize(refs.Keys, more.Keys);
  }

  lemma SubsetOfSize(small: set<Token>, large: set<Token>)
    requires small <= large && |large| <= |small|
    ensures small == large
  {
    assert large == small + (large - small);
  }
}
