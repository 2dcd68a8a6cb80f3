/** The open browses, and reading a folder page by page. */
module DirectoryBrowsers {
  import opened Wrappers
  import opened BrowseSessions

  const MAX_BROWSE_SESSIONS := 8
  const BROWSE_TTL_SECONDS := 5 * 60

  datatype Open = Open(id: Token, session: BrowseSession)

  datatype Reply =
    | Invalid
    | Unavailable
    | Listing(id: Token, current: Option<Listed>, parent: Option<Token>, entries: seq<Listed>,
              nextCursor: Option<Token>, truncated: bool, expiresAt: int)

  /** The session open under that id. */
  ghost function SessionOf(sessions: seq<Open>, id: Token): BrowseSession? {
    if sessions == [] then null
    else if sessions[|sessions| - 1].id == id then sessions[|sessions| - 1].session
    else SessionOf(sessions[..|sessions| - 1], id)
  }

  lemma {:induction false} SessionAt(sessions: seq<Open>, next: Token, i: nat)
    requires AllApart(sessions, next) && i < |sessions|
    ensures SessionOf(sessions, sessions[i].id) == sessions[i].session
  {
    if i < |sessions| - 1 {
      SessionAt(sessions[..|sessions| - 1], next, i);
    }
  }

  lemma {:induction false} NoSession(sessions: seq<Open>, id: Token)
    requires forall i | 0 <= i < |sessions| :: sessions[i].id != id
    ensures SessionOf(sessions, id) == null
  {
    if sessions != [] {
      NoSession(sessions[..|sessions| - 1], id);
    }
  }

  lemma SessionSnoc(sessions: seq<Open>, last: Open, id: Token)
    ensures SessionOf(sessions + [last], id) == if last.id == id then last.session else SessionOf(sessions, id)
  {
    assert (sessions + [last])[..|sessions|] == sessions;
  }

  lemma LastApart(sessions: seq<Open>, next: Token)
    requires AllApart(sessions, next) && sessions != []
    ensures AllApart(sessions[..|sessions| - 1], next)
    ensures forall o | o in sessions[..|sessions| - 1] ::
              o.id != sessions[|sessions| - 1].id && o.session != sessions[|sessions| - 1].session
  {
    var front := sessions[..|sessions| - 1];
    forall o | o in front ensures o.id != sessions[|sessions| - 1].id && o.session != sessions[|sessions| - 1].session {
      var i :| 0 <= i < |front| && front[i] == o;
      assert sessions[i] == o;
    }
  }

  lemma StillOpenSnoc(sessions: seq<Open>, last: Open, now: int)
    ensures StillOpen(sessions + [last], now) ==
            if last.session.expiresAt <= now then StillOpen(sessions, now) else StillOpen(sessions, now) + [last]
  {
    assert (sessions + [last])[..|sessions|] == sessions;
  }

  lemma NoneOf(sessions: seq<Open>, id: Token, now: int)
    requires forall o | o in sessions :: o.id != id
    ensures SessionOf(StillOpen(sessions, now), id) == null
  {
    assert forall o | o in StillOpen(sessions, now) :: o.id != id;
    NoSession(StillOpen(sessions, now), id);
  }

  /** Dropping the expired sessions hides those and no other. */
  lemma {:induction false} SessionOfOpen(sessions: seq<Open>, next: Token, id: Token, now: int)
    requires AllApart(sessions, next)
    ensures var s := SessionOf(sessions, id);
            SessionOf(StillOpen(sessions, now), id) == if s != null && s.expiresAt > now then s else null
  {
    if sessions == [] {
      assert StillOpen(sessions, now) == [];
    } else {
      var front, last := sessions[..|sessions| - 1], sessions[|sessions| - 1];
      LastApart(sessions, next);
      hide SessionOf, StillOpen, AllApart;
      assert sessions == front + [last];
      SessionSnoc(front, last, id);
      StillOpenSnoc(front, last, now);
      if last.session.expiresAt > now {
        SessionSnoc(StillOpen(front, now), last, id);
      }
      if last.id == id {
        NoneOf(front, id, now);
      } else {
        SessionOfOpen(front, next, id, now);
      }
    }
  }

  lemma WithoutApart(sessions: seq<Open>, i: nat, next: Token)
    requires AllApart(sessions, next) && i < |sessions|
    ensures AllApart(Without(sessions, i), next)
    ensures forall k | 0 <= k < |sessions| - 1 :: Without(sessions, i)[k] == sessions[if k < i then k else k + 1]
  {
    var less := Without(sessions, i);
    forall j, k | 0 <= j < k < |less| ensures less[j].id != less[k].id && less[j].session != less[k].session {
      var j', k' := if j < i then j else j + 1, if k < i then k else k + 1;
      assert less[j] == sessions[j'] && less[k] == sessions[k'] && j' < k';
    }
  }

  ghost predicate AllApart(sessions: seq<Open>, next: Token) {
    && (forall i | 0 <= i < |sessions| :: sessions[i].id < next)
    && (forall i, j | 0 <= i < j < |sessions| :: sessions[i].id != sessions[j].id)
    && (forall i, j | 0 <= i < j < |sessions| :: sessions[i].session != sessions[j].session)
  }

  function StillOpen(sessions: seq<Open>, now: int): (r: seq<Open>)
    ensures |r| <= |sessions|
    ensures forall o | o in r :: o in sessions && o.session.expiresAt > now
    ensures forall o | o in sessions && o.session.expiresAt > now :: o in r
  {
    if sessions == [] then []
    else
      var last := sessions[|sessions| - 1];
      StillOpen(sessions[..|sessions| - 1], now) + if last.session.expiresAt <= now then [] else [last]
  }

  function Without(sessions: seq<Open>, i: nat): seq<Open>
    requires i < |sessions|
  {
    sessions[..i] + sessions[i + 1..]
  }

  lemma {:induction false} StillOpenApart(sessions: seq<Open>, next: Token, now: int)
    requires AllApart(sessions, next)
    ensures AllApart(StillOpen(sessions, now), next)
  {
    if sessions != [] {
      var front, last := sessions[..|sessions| - 1], sessions[|sessions| - 1];
      LastApart(sessions, next);
      StillOpenApart(front, next, now);
      var kept := StillOpen(front, now);
      forall i | 0 <= i < |kept| ensures kept[i].id != last.id && kept[i].session != last.session {
        assert kept[i] in kept;
      }
    }
  }

  lemma MovedLast(sessions: seq<Open>, i: nat, next: Token, id: Token)
    requires AllApart(sessions, next) && i < |sessions|
    ensures AllApart(Without(sessions, i) + [sessions[i]], next)
    ensures forall o | o in Without(sessions, i) + [sessions[i]] :: o in sessions
  {
    WithoutApart(sessions, i, next);
    var less := Without(sessions, i);
    forall k | 0 <= k < |less| ensures less[k].id != sessions[i].id && less[k].session != sessions[i].session && less[k] in sessions {
      assert less[k] == sessions[if k < i then k else k + 1];
    }
  }

  lemma OthersKept(sessions: seq<Open>, i: nat, next: Token)
    requires AllApart(sessions, next) && i < |sessions|
    ensures forall o | o in Without(sessions, i) :: o in sessions && o.id != sessions[i].id
    ensures forall o | o in sessions && o.id != sessions[i].id :: o in Without(sessions, i)
  {
    var less := Without(sessions, i);
    WithoutApart(sessions, i, next);
    forall o | o in less ensures o in sessions && o.id != sessions[i].id {
      var k :| 0 <= k < |less| && less[k] == o;
      assert o == sessions[if k < i then k else k + 1];
    }
    forall o | o in sessions && o.id != sessions[i].id ensures o in less {
      var k :| 0 <= k < |sessions| && sessions[k] == o;
      assert o == less[if k < i then k else k - 1];
    }
  }

  lemma ApartLater(sessions: seq<Open>, next: Token, later: Token)
    requires AllApart(sessions, next) && next <= later
    ensures AllApart(sessions, later)
  {
  }

  /** Whether the session can be listed from, and what is then asked of it. */
  ghost predicate Alive(s: BrowseSession?, now: int, later: int) {
    s != null && s.expiresAt > now && s.expiresAt > later
  }

  function SessionsIn(sessions: seq<Open>): set<BrowseSession> {
    set o | o in sessions :: o.session
  }

  ghost predicate EachValid(sessions: seq<Open>, next: Token)
    reads SessionsIn(sessions)
  {
    forall o | o in sessions :: o.session.Valid(next)
  }

  lemma SomeValid(sessions: seq<Open>, some: seq<Open>, next: Token)
    requires EachValid(sessions, next) && forall o | o in some :: o in sessions
    ensures EachValid(some, next)
  {
  }

  lemma ValidLater(sessions: seq<Open>, next: Token, later: Token)
    requires EachValid(sessions, next) && next <= later
    ensures EachValid(sessions, later)
  {
    forall o | o in sessions ensures o.session.Valid(later) {
      o.session.Later(next, later);
    }
  }

  lemma ApartAdd(sessions: seq<Open>, one: Open, next: Token)
    requires AllApart(sessions, next) && one.id < next
    requires forall o | o in sessions :: o.id != one.id && o.session != one.session
    ensures AllApart(sessions + [one], next)
  {
    assert forall i | 0 <= i < |sessions| :: sessions[i] in sessions;
  }

  lemma FirstDropped(sessions: seq<Open>, next: Token)
    requires AllApart(sessions, next) && sessions != []
    ensures AllApart(sessions[1..], next) && forall o | o in sessions[1..] :: o in sessions
  {
  }

  lemma IdsBelow(sessions: seq<Open>, next: Token)
    requires AllApart(sessions, next)
    ensures forall o | o in sessions :: o.id < next
  {
  }

  /** The reply is the page that was asked for, or that it cannot be read. */
  ghost predicate Answers(reply: Reply, id: Token, expiresAt: int, disk: Disk, refs0: map<Token, Target>,
                          cursors0: seq<Cursor>, ref: Token, cursor: Option<Token>, refs: map<Token, Target>,
                          cursors: seq<Cursor>)
  {
    && Extends(refs0, refs)
    && if reply.Unavailable? then Unreadable(disk, refs0, ref)
       else Shows(reply, id, expiresAt, disk, refs0, cursors0, ref, cursor, refs, cursors)
  }

  // ---- what becomes of the open browses ----

  /** The browse under that id is now the most recently used, the others are as
      they were. */
  ghost predicate UsedLast(before: seq<Open>, after: seq<Open>, id: Token) {
    exists i :: 0 <= i < |before| && before[i].id == id && after == Without(before, i) + [before[i]]
  }

  /** No browse is gone, but for the one under that id if it has expired. */
  ghost predicate Lapsed(before: seq<Open>, after: seq<Open>, id: Token, now: int) {
    || after == before
    || exists i :: 0 <= i < |before| && before[i].id == id && before[i].session.expiresAt <= now && after == Without(before, i)
  }

  /** A new browse on those roots, and what made room for it. */
  ghost predicate Begun(reply: Reply, before: seq<Open>, after: seq<Open>, roots: seq<Path>, later: int)
    reads SessionsIn(after)
  {
    && reply.Listing? && reply.current == None && reply.parent == None && reply.nextCursor == None
    && !reply.truncated && reply.expiresAt == later + BROWSE_TTL_SECONDS
    && after != [] && after[|after| - 1].id == reply.id
    && after[..|after| - 1] == before[(if |before| == MAX_BROWSE_SESSIONS then 1 else 0)..]
    && var session := after[|after| - 1].session;
       session.expiresAt == reply.expiresAt
       && |reply.entries| == |roots|
       && forall k | 0 <= k < |roots| ::
            reply.entries[k].path == roots[k] && reply.entries[k].ref in session.refs
            && session.refs[reply.entries[k].ref] == Target(roots[k], None)
  }

  lemma BegunOn(reply: Reply, before: seq<Open>, kept: seq<Open>, after: seq<Open>, roots: seq<Path>, later: int)
    requires reply.Listing? && reply == Listing(reply.id, None, None, reply.entries, None, false, later + BROWSE_TTL_SECONDS)
    requires kept == before[(if |before| == MAX_BROWSE_SESSIONS then 1 else 0)..]
    requires after != [] && after == kept + [after[|after| - 1]] && after[|after| - 1].id == reply.id
    requires var session := after[|after| - 1].session;
             session.expiresAt == reply.expiresAt && |reply.entries| == |roots|
             && forall k | 0 <= k < |roots| ::
                  reply.entries[k].path == roots[k] && reply.entries[k].ref in session.refs
                  && session.refs[reply.entries[k].ref] == Target(roots[k], None)
    ensures Begun(reply, before, after, roots, later)
  {
    assert after[..|after| - 1] == kept;
  }

  lemma BegunAdds(reply: Reply, before: seq<Open>, after: seq<Open>, roots: seq<Path>, later: int)
    requires Begun(reply, before, after, roots, later)
    ensures forall o | o in after :: o in before || (o.id == reply.id && o == after[|after| - 1])
  {
    assert after == after[..|after| - 1] + [after[|after| - 1]];
  }

  lemma OtherSessions(sessions: seq<Open>, i: nat, next: Token)
    requires AllApart(sessions, next) && i < |sessions|
    ensures forall o | o in sessions && o.id != sessions[i].id :: o.session != sessions[i].session
    ensures forall o | o in sessions && o.id == sessions[i].id :: o == sessions[i]
  {
  }

  lemma MovedCount(sessions: seq<Open>, i: nat)
    requires i < |sessions|
    ensures |Without(sessions, i) + [sessions[i]]| == |sessions|
    ensures (Without(sessions, i) + [sessions[i]])[|sessions| - 1] == sessions[i]
  {
  }

  ghost predicate Shows(reply: Reply, id: Token, expiresAt: int, disk: Disk, refs0: map<Token, Target>, cursors0: seq<Cursor>,
                        ref: Token, cursor: Option<Token>, refs: map<Token, Target>, cursors: seq<Cursor>)
  {
    && reply.Listing? && reply.id == id && reply.expiresAt == expiresAt
    && reply.current.Some? && reply.current.value.ref == ref
    && TurnedTo(Page(reply.current.value.path, reply.entries, reply.nextCursor, reply.truncated), disk, refs0, cursors0,
                ref, cursor, refs, cursors)
    && ref in refs0 && reply.parent == refs0[ref].parent
  }

  class DirectoryBrowser {
    // Least recently used first.
    var sessions: seq<Open>
    var next: Token

    ghost predicate Valid()
      reads this, SessionsIn(sessions)
    {
      |sessions| <= MAX_BROWSE_SESSIONS && AllApart(sessions, next) && EachValid(sessions, next)
    }

    constructor ()
      ensures Valid() && sessions == []
    {
      sessions, next := [], 0;
    }

    /** Every reference is invalid from here on. */
    method Reset()
      modifies this`sessions
      ensures Valid() && sessions == []
    {
      sessions := [];
    }

    method EvictExpired(now: int)
      requires Valid()
      modifies this`sessions
      ensures Valid() && sessions == StillOpen(old(sessions), now)
    {
      hide AllApart, BrowseSession.Valid, StillOpen;
      StillOpenApart(sessions, next, now);
      SomeValid(sessions, StillOpen(sessions, now), next);
      var kept: seq<Open> := [];
      for i := 0 to |sessions|
        invariant sessions == old(sessions) && kept == StillOpen(sessions[..i], now)
      {
        assert sessions[..i + 1] == sessions[..i] + [sessions[i]];
        StillOpenSnoc(sessions[..i], sessions[i], now);
        if sessions[i].session.expiresAt > now {
          kept := kept + [sessions[i]];
        }
      }
      assert sessions[..|sessions|] == sessions;
      sessions := kept;
    }

    method Position(id: Token) returns (i: nat)
      ensures i <= |sessions| && (i < |sessions| ==> sessions[i].id == id)
      ensures i == |sessions| ==> forall j | 0 <= j < |sessions| :: sessions[j].id != id
    {
      i := 0;
      while i < |sessions| && sessions[i].id != id
        invariant i <= |sessions| && forall j | 0 <= j < i :: sessions[j].id != id
      {
        i := i + 1;
      }
    }

    /** The live session under that id; an expired one is dropped. */
    method GetSession(id: Token, now: int) returns (i: nat)
      requires Valid()
      modifies this`sessions
      ensures Valid() && i <= |sessions| && forall o | o in sessions :: o in old(sessions)
      ensures i < |sessions| <==> SessionOf(old(sessions), id) != null && SessionOf(old(sessions), id).expiresAt > now
      ensures i < |sessions| ==> sessions == old(sessions) && sessions[i] == Open(id, SessionOf(sessions, id))
      ensures Lapsed(old(sessions), sessions, id, now)
    {
      hide AllApart, BrowseSession.Valid, SessionOf;
      i := Position(id);
      if i == |sessions| {
        NoSession(sessions, id);
        return;
      }
      SessionAt(sessions, next, i);
      if sessions[i].session.expiresAt <= now {
        WithoutApart(sessions, i, next);
        SomeValid(sessions, Without(sessions, i), next);
        sessions := Without(sessions, i);
        i := |sessions|;
      }
    }

    /** A new browse, listing the safe roots; the least recently used browse
        makes room for it. */
    method Start(roots: seq<Path>, later: int) returns (reply: Reply)
      requires Valid() && |roots| <= MAX_DIRECTORY_ENTRIES
      modifies this
      ensures Valid() && old(next) <= next
      ensures reply.Listing? && Begun(reply, old(sessions), sessions, roots, later)
      ensures reply.id >= old(next) && fresh(sessions[|sessions| - 1].session)
    {
      hide AllApart, BrowseSession.Valid, Begun;
      while |sessions| >= MAX_BROWSE_SESSIONS
        invariant Valid() && next == old(next)
        invariant sessions == old(sessions)
                  || (|old(sessions)| == MAX_BROWSE_SESSIONS && sessions == old(sessions)[1..])
        decreases |sessions|
      {
        FirstDropped(sessions, next);
        SomeValid(sessions, sessions[1..], next);
        sessions := sessions[1..];
      }
      ghost var kept := sessions;
      var id := next;
      var session := new BrowseSession(later + BROWSE_TTL_SECONDS);
      var entries, drawn := session.AddRoots(roots, id + 1);
      ValidLater(sessions, id, drawn);
      IdsBelow(sessions, id);
      ApartLater(sessions, id, drawn);
      ApartAdd(sessions, Open(id, session), drawn);
      OneMoreValid(sessions, Open(id, session), drawn);
      next := drawn;
      sessions := sessions + [Open(id, session)];
      reply := Listing(id, None, None, entries, None, false, later + BROWSE_TTL_SECONDS);
      BegunOn(reply, old(sessions), kept, sessions, roots, later);
    }

    /** One page below a reference of an open browse. */
    method ListBelow(id: Token, ref: Token, cursor: Option<Token>, disk: Disk, later: int) returns (reply: Reply)
      requires Valid()
      modifies this, SessionsIn(sessions)
      ensures Valid() && old(next) <= next && forall o | o in sessions :: o in old(sessions)
      ensures reply.Invalid? <==>
              (var s := SessionOf(old(sessions), id);
               s == null || s.expiresAt <= later || Unknown(old(s.refs), old(s.cursors), ref, cursor))
      ensures !reply.Invalid? ==>
                (var s := SessionOf(old(sessions), id);
                 SessionOf(sessions, id) == s && Answers(reply, id, s.expiresAt, disk, old(s.refs), old(s.cursors), ref,
                                                         cursor, s.refs, s.cursors))
      ensures reply.Invalid? ==> Lapsed(old(sessions), sessions, id, later)
      ensures reply.Unavailable? ==> sessions == old(sessions)
      ensures reply.Listing? ==> UsedLast(old(sessions), sessions, id)
      ensures forall o | o in old(sessions) ::
                Grows(old(o.session.refs), old(o.session.cursors), old(next), o.session.refs, o.session.cursors)
      ensures forall o | o in old(sessions) && (o.id != id || reply.Invalid?) ::
                o.session.refs == old(o.session.refs) && o.session.cursors == old(o.session.cursors)
    {
      hide AllApart, BrowseSession.Valid, SessionOf, Unknown, TurnedTo, CursorsOk, TableOk, Lapsed;
      var i := GetSession(id, later);
      if i == |sessions| {
        return Invalid;
      }
      var s := sessions[i].session;
      OtherSessions(sessions, i, next);
      var page, drawn := s.Turn(ref, cursor, disk, next);
      OthersLater(sessions, s, next, drawn);
      next := drawn;
      match page {
        case NoSuchPage => return Invalid;
        case NotReadable => return Unavailable;
        case Page(current, entries, nextCursor, truncated) =>
          MovedLast(sessions, i, next, id);
          MovedCount(sessions, i);
          SessionAt(Without(sessions, i) + [sessions[i]], next, |sessions| - 1);
          sessions := Without(sessions, i) + [sessions[i]];
          reply := Listing(id, Some(Listed(ref, current)), s.refs[ref].parent, entries, nextCursor, truncated, s.expiresAt);
      }
    }

    /** list_directories; `now` and `later` are its two readings of the clock. */
    method ListDirectories(browseId: Option<Token>, ref: Option<Token>, cursor: Option<Token>,
                           roots: seq<Path>, disk: Disk, now: int, later: int)
      returns (reply: Reply)
      requires Valid() && |roots| <= MAX_DIRECTORY_ENTRIES
      modifies this, SessionsIn(sessions)
      ensures Valid() && old(next) <= next
      ensures browseId.Some? ==> forall o | o in sessions :: o in old(sessions)
      ensures forall o | o in sessions :: o in old(sessions) || (o.id >= old(next) && fresh(o.session))
      ensures reply.Invalid? <==>
              (browseId.None? != ref.None?) || (cursor.Some? && browseId.None?)
              || (browseId.Some? && (var s := SessionOf(old(sessions), browseId.value);
                                     !Alive(s, now, later) || Unknown(old(s.refs), old(s.cursors), ref.value, cursor)))
      ensures browseId.Some? && !reply.Invalid? ==>
                (var s := SessionOf(old(sessions), browseId.value);
                 SessionOf(sessions, browseId.value) == s
                 && Answers(reply, browseId.value, s.expiresAt, disk, old(s.refs), old(s.cursors), ref.value, cursor,
                            s.refs, s.cursors))
      // Which browses are open then, least recently used first.
      ensures browseId.None? != ref.None? || (cursor.Some? && browseId.None?) ==> sessions == old(sessions)
      ensures browseId.None? && !reply.Invalid? ==>
                && Begun(reply, StillOpen(old(sessions), now), sessions, roots, later)
                && reply.id >= old(next) && fresh(sessions[|sessions| - 1].session)
      ensures browseId.Some? && ref.Some? ==>
                && (reply.Invalid? ==> Lapsed(StillOpen(old(sessions), now), sessions, browseId.value, later))
                && (reply.Unavailable? ==> sessions == StillOpen(old(sessions), now))
                && (reply.Listing? ==> UsedLast(StillOpen(old(sessions), now), sessions, browseId.value))
      // No browse but the one listed from is touched, and that one only grows.
      ensures forall o | o in old(sessions) ::
                Grows(old(o.session.refs), old(o.session.cursors), old(next), o.session.refs, o.session.cursors)
      ensures forall o | o in old(sessions) && (browseId != Some(o.id) || reply.Invalid?) ::
                o.session.refs == old(o.session.refs) && o.session.cursors == old(o.session.cursors)
    {
      hide AllApart, EachValid, SessionOf, Unknown, Answers, StillOpen, Lapsed, UsedLast, Begun;
      if browseId.None? != ref.None? || (cursor.Some? && browseId.None?) {
        return Invalid;
      }
      ghost var before := sessions;
      EvictExpired(now);
      if browseId.None? {
        ghost var open := sessions;
        reply := Start(roots, later);
        BegunAdds(reply, open, sessions, roots, later);
        return;
      }
      SessionOfOpen(before, next, browseId.value, now);
      ghost var s := SessionOf(before, browseId.value);
      assert s != null ==> s.refs == old(s.refs) && s.cursors == old(s.cursors);
      reply := ListBelow(browseId.value, ref.value, cursor, disk, later);
    }

    /** The folder a reference stands for. */
    method Resolve(id: Token, ref: Token, disk: Disk, now: int, later: int) returns (reply: Reply, path: Path)
      requires Valid()
      modifies this`sessions
      ensures Valid()
      ensures var s := SessionOf(old(sessions), id);
              (reply.Invalid? <==> !Alive(s, now, later) || ref !in s.refs)
              && (!reply.Invalid? ==>
                    if disk.canonical(s.refs[ref].path).None? then reply.Unavailable?
                    else reply.Listing? && disk.canonical(s.refs[ref].path) == Some(path))
    {
      ghost var before := sessions;
      hide AllApart, EachValid, SessionOf, StillOpen;
      path := [];
      EvictExpired(now);
      SessionOfOpen(before, next, id, now);
      var i := GetSession(id, later);
      if i == |sessions| || ref !in sessions[i].session.refs {
        return Invalid, path;
      }
      var session := sessions[i].session;
      var found := disk.canonical(session.refs[ref].path);
      if found.None? {
        return Unavailable, path;
      }
      path := found.value;
      reply := Listing(id, Some(Listed(ref, path)), session.refs[ref].parent, [], None, false, session.expiresAt);
    }

    /** The browse and every reference in it is gone. */
    method Consume(id: Token)
      requires Valid()
      modifies this`sessions
      ensures Valid() && forall o | o in sessions :: o.id != id && o in old(sessions)
      ensures forall o | o in old(sessions) && o.id != id :: o in sessions
    {
      hide AllApart, BrowseSession.Valid;
      var i := Position(id);
      if i < |sessions| {
        WithoutApart(sessions, i, next);
        SomeValid(sessions, Without(sessions, i), next);
        OthersKept(sessions, i, next);
        sessions := Without(sessions, i);
      }
    }
  }

  /** One session drew tokens; the others are as they were. */
  lemma OthersLater(sessions: seq<Open>, s: BrowseSession, next: Token, drawn: Token)
    requires AllApart(sessions, next) && next <= drawn
    requires s.Valid(drawn) && forall o | o in sessions && o.session != s :: o.session.Valid(next)
    ensures EachValid(sessions, drawn) && AllApart(sessions, drawn)
  {
    forall o | o in sessions ensures o.session.Valid(drawn) {
      if o.session != s {
        o.session.Later(next, drawn);
      }
    }
    ApartLater(sessions, next, drawn);
  }

  lemma OneMoreValid(sessions: seq<Open>, one: Open, next: Token)
    requires EachValid(sessions, next) && one.session.Valid(next)
    ensures EachValid(sessions + [one], next)
  {
  }

  // ---- reading a folder page by page ----

  function Shown(pages: seq<Reply>): seq<Path>
    requires forall p | p in pages :: p.Listing?
  {
    if pages == [] then []
    else Shown(pages[..|pages| - 1]) + EntryPaths(pages[|pages| - 1].entries)
  }

  function EntryPaths(entries: seq<Listed>): seq<Path> {
    seq(|entries|, i requires 0 <= i < |entries| => entries[i].path)
  }

  predicate Distinct(paths: seq<Path>) {
    forall i, j | 0 <= i < j < |paths| :: paths[i] != paths[j]
  }

  lemma {:induction false} InsertDistinct(found: seq<Found>, one: Found)
    requires Distinct(Paths(found)) && forall f | f in found :: f.path != one.path
    ensures Distinct(Paths(Insert(found, one)))
    ensures forall f | f in Insert(found, one) :: f == one || f in found
  {
    if found != [] && found[|found| - 1].rank > one.rank {
      var front, last := found[..|found| - 1], found[|found| - 1];
      assert forall i | 0 <= i < |front| :: Paths(front)[i] == Paths(found)[i];
      InsertDistinct(front, one);
      var more := Insert(front, one);
      forall i | 0 <= i < |more| ensures more[i].path != last.path {
        assert more[i] in more;
        if more[i] in front {
          var j :| 0 <= j < |front| && front[j] == more[i];
          assert Paths(found)[j] != Paths(found)[|found| - 1];
        }
      }
      AppendDistinct(more, last);
    } else {
      AppendDistinct(found, one);
    }
  }

  lemma AppendDistinct(found: seq<Found>, one: Found)
    requires Distinct(Paths(found)) && forall i | 0 <= i < |found| :: found[i].path != one.path
    ensures Distinct(Paths(found + [one]))
  {
    assert Paths(found + [one]) == Paths(found) + [one.path];
  }

  /** Sorting folders with distinct paths leaves them distinct. */
  lemma {:induction false} SortDistinct(found: seq<Found>)
    requires Distinct(Paths(found))
    ensures Distinct(Paths(Sort(found))) && forall f | f in Sort(found) :: f in found
  {
    if found != [] {
      var front, last := found[..|found| - 1], found[|found| - 1];
      assert forall i | 0 <= i < |front| :: Paths(front)[i] == Paths(found)[i];
      SortDistinct(front);
      forall f | f in front ensures f.path != last.path {
        var j :| 0 <= j < |front| && front[j] == f;
        assert Paths(found)[j] != Paths(found)[|found| - 1];
      }
      InsertDistinct(Sort(front), last);
    }
  }

  /** What one page says once it is known where its cursor stands. */
  lemma PageFacts(page: Turned, disk: Disk, refs0: map<Token, Target>, cursors0: seq<Cursor>, next: Token, ref: Token,
                  cursor: Option<Token>, refs: map<Token, Target>, cursors: seq<Cursor>, start: nat)
    requires page.Page? && TurnedTo(page, disk, refs0, cursors0, ref, cursor, refs, cursors)
    requires StartsAt(cursors0, cursor, ref, start) && CursorsOk(cursors0, refs0, next)
    ensures var all := Candidates(disk.scan(page.current).value);
            && (start <= |all| ==>
                  start + |page.entries| <= |all| && EntryPaths(page.entries) == all[start..start + |page.entries|])
            && (page.nextCursor.Some? ==>
                  |page.entries| == MAX_DIRECTORY_ENTRIES && start + MAX_DIRECTORY_ENTRIES < |all|
                  && StartsAt(cursors, page.nextCursor, ref, start + MAX_DIRECTORY_ENTRIES))
            && (page.nextCursor.None? && !page.truncated ==> start + |page.entries| >= |all|)
  {
    hide Candidates;
    var offset: nat, nextOffset: Option<nat> :|
      && StartsAt(cursors0, cursor, ref, offset)
      && PageOf(page.entries, page.truncated, nextOffset, disk.scan(page.current).value, offset, refs, ref)
      && (nextOffset.None? <==> page.nextCursor.None?)
      && (nextOffset.Some? ==> Cursor(page.nextCursor.value, ref, nextOffset.value) in cursors);
    if cursor.Some? {
      var i :| 0 <= i < |cursors0| && cursors0[i] == Cursor(cursor.value, ref, start);
      OneToken(cursors0, i, refs0, next);
    }
    assert offset == start;
  }

  /** The folder a live session's reference stands for, as it is on disk. */
  ghost predicate Readable(s: BrowseSession?, ref: Token, disk: Disk, folder: Path, scan: seq<Entry>)
    reads s
  {
    s != null && ref in s.refs && disk.canonical(s.refs[ref].path) == Some(folder) && disk.scan(folder) == Some(scan)
  }

  lemma NotUnknown(refs: map<Token, Target>, cursors: seq<Cursor>, ref: Token, cursor: Option<Token>, start: nat)
    requires ref in refs && StartsAt(cursors, cursor, ref, start)
    ensures !Unknown(refs, cursors, ref, cursor)
  {
  }

  lemma {:induction false} FoundOpen(sessions: seq<Open>, id: Token) returns (o: Open)
    requires SessionOf(sessions, id) != null
    ensures o in sessions && o == Open(id, SessionOf(sessions, id))
  {
    if sessions[|sessions| - 1].id == id {
      o := sessions[|sessions| - 1];
    } else {
      o := FoundOpen(sessions[..|sessions| - 1], id);
    }
  }

  lemma ValidParts(b: DirectoryBrowser, id: Token)
    requires b.Valid()
    ensures AllApart(b.sessions, b.next)
    ensures SessionOf(b.sessions, id) != null ==>
              && id < b.next && Open(id, SessionOf(b.sessions, id)) in b.sessions
              && var s := SessionOf(b.sessions, id);
                 TableOk(s.refs, s.refByTarget, b.next) && CursorsOk(s.cursors, s.refs, b.next)
  {
    if SessionOf(b.sessions, id) != null {
      var o := FoundOpen(b.sessions, id);
      assert o.session.Valid(b.next);
    }
  }

  /** The page at `start` of a folder that stays as it is. */
  method NextPage(b: DirectoryBrowser, id: Token, ref: Token, cursor: Option<Token>, disk: Disk, now: int, later: int,
                  ghost folder: Path, ghost scan: seq<Entry>, ghost start: nat)
    returns (reply: Reply)
    requires b.Valid() && Readable(SessionOf(b.sessions, id), ref, disk, folder, scan)
    requires Alive(SessionOf(b.sessions, id), now, later)
    requires StartsAt(SessionOf(b.sessions, id).cursors, cursor, ref, start)
    modifies b, SessionsIn(b.sessions)
    ensures b.Valid() && SessionOf(b.sessions, id) == SessionOf(old(b.sessions), id)
    ensures forall o | o in b.sessions :: o in old(b.sessions)
    ensures Readable(SessionOf(b.sessions, id), ref, disk, folder, scan)
    ensures reply.Listing? && PagedOn(reply, Candidates(scan), start)
    ensures reply.nextCursor.Some? ==>
              StartsAt(SessionOf(b.sessions, id).cursors, reply.nextCursor, ref, start + MAX_DIRECTORY_ENTRIES)
  {
    ghost var s := SessionOf(b.sessions, id);
    ghost var refs0, cursors0, drawn := s.refs, s.cursors, b.next;
    NotUnknown(refs0, cursors0, ref, cursor, start);
    ValidParts(b, id);
    assert s in SessionsIn(b.sessions);
    assert disk.canonical(refs0[ref].path) == Some(folder) && disk.scan(folder) == Some(scan);
    hide Unknown, StartsAt, DirectoryBrowser.Valid, Candidates, TurnedTo, CursorsOk, SessionOf, Answers, PagedOn, Readable;
    reply := b.ListDirectories(Some(id), Some(ref), cursor, [], disk, now, later);
    PageAnswers(reply, id, s.expiresAt, disk, refs0, cursors0, drawn, ref, cursor, s.refs, s.cursors, folder, scan, start);
    StillReadable(s, ref, disk, folder, scan, refs0);
  }

  lemma StillReadable(s: BrowseSession, ref: Token, disk: Disk, folder: Path, scan: seq<Entry>, refs0: map<Token, Target>)
    requires ref in refs0 && disk.canonical(refs0[ref].path) == Some(folder) && disk.scan(folder) == Some(scan)
    requires Extends(refs0, s.refs)
    ensures Readable(s, ref, disk, folder, scan)
  {
  }

  lemma PageAnswers(reply: Reply, id: Token, expiresAt: int, disk: Disk, refs0: map<Token, Target>, cursors0: seq<Cursor>,
                    next: Token, ref: Token, cursor: Option<Token>, refs: map<Token, Target>, cursors: seq<Cursor>,
                    folder: Path, scan: seq<Entry>, start: nat)
    requires !reply.Invalid? && Answers(reply, id, expiresAt, disk, refs0, cursors0, ref, cursor, refs, cursors)
    requires ref in refs0 && disk.canonical(refs0[ref].path) == Some(folder) && disk.scan(folder) == Some(scan)
    requires StartsAt(cursors0, cursor, ref, start) && CursorsOk(cursors0, refs0, next)
    ensures reply.Listing? && PagedOn(reply, Candidates(scan), start) && Extends(refs0, refs)
    ensures reply.nextCursor.Some? ==> StartsAt(cursors, reply.nextCursor, ref, start + MAX_DIRECTORY_ENTRIES)
  {
    hide StartsAt, Candidates, TurnedTo, CursorsOk;
    var page := Page(reply.current.value.path, reply.entries, reply.nextCursor, reply.truncated);
    TurnedReadable(page, disk, refs0, cursors0, ref, cursor, refs, cursors);
    PageFacts(page, disk, refs0, cursors0, next, ref, cursor, refs, cursors, start);
  }

  lemma TurnedReadable(page: Turned, disk: Disk, refs0: map<Token, Target>, cursors0: seq<Cursor>, ref: Token,
                       cursor: Option<Token>, refs: map<Token, Target>, cursors: seq<Cursor>)
    requires page.Page? && TurnedTo(page, disk, refs0, cursors0, ref, cursor, refs, cursors)
    ensures ref in refs0 && Extends(refs0, refs)
    ensures disk.canonical(refs0[ref].path) == Some(page.current) && disk.scan(page.current).Some?
  {
  }

  ghost predicate PagedOn(page: Reply, all: seq<Path>, start: nat)
    requires page.Listing?
  {
    && (start <= |all| ==>
          start + |page.entries| <= |all| && EntryPaths(page.entries) == all[start..start + |page.entries|])
    && (page.nextCursor.Some? ==>
          |page.entries| == MAX_DIRECTORY_ENTRIES && start + MAX_DIRECTORY_ENTRIES < |all|)
    && (page.nextCursor.None? && !page.truncated ==> start + |page.entries| >= |all|)
  }

  /** The pages so far, and whether there are more. */
  ghost predicate ReadSoFar(pages: seq<Reply>, all: seq<Path>, more: bool) {
    && (forall p | p in pages :: p.Listing?)
    && Shown(pages) <= all
    && (if more then
          Shown(pages) == all[..|Shown(pages)|] && |Shown(pages)| == |pages| * MAX_DIRECTORY_ENTRIES
          && (pages != [] ==> |Shown(pages)| < |all|)
        else
          (forall p | p in pages :: !p.truncated) ==> Shown(pages) == all)
  }

  lemma OnePageMore(pages: seq<Reply>, page: Reply, all: seq<Path>)
    requires ReadSoFar(pages, all, true) && page.Listing? && PagedOn(page, all, |pages| * MAX_DIRECTORY_ENTRIES)
    ensures ReadSoFar(pages + [page], all, page.nextCursor.Some?)
  {
    assert (pages + [page])[..|pages|] == pages;
    var start := |pages| * MAX_DIRECTORY_ENTRIES;
    assert all[..start] + all[start..start + |page.entries|] == all[..start + |page.entries|];
    if page.nextCursor.None? && forall p | p in pages + [page] :: !p.truncated {
      assert page in pages + [page];
    }
  }

  /** A folder read to its end: list_directories asked for page after page by
      the cursor each one gives, while the folder and the browse stay. */
  method FollowPages(b: DirectoryBrowser, id: Token, ref: Token, disk: Disk, clock: seq<int>,
                     ghost folder: Path, ghost scan: seq<Entry>)
    returns (pages: seq<Reply>)
    requires b.Valid() && Readable(SessionOf(b.sessions, id), ref, disk, folder, scan)
    requires |clock| == 10 && forall t | t in clock :: t < SessionOf(b.sessions, id).expiresAt
    modifies b, SessionsIn(b.sessions)
    ensures b.Valid() && 1 <= |pages| <= 5 && forall p | p in pages :: p.Listing?
    ensures Shown(pages) <= Candidates(scan)
    ensures (forall p | p in pages :: !p.truncated) ==> Shown(pages) == Candidates(scan)
    ensures Distinct(Paths(Seen(Budgeted(scan)))) ==> Distinct(Shown(pages))
  {
    hide DirectoryBrowser.Valid, Candidates, PagedOn, ReadSoFar, SessionOf, Shown, StartsAt, Readable, SessionsIn, Alive;
    ghost var all, s := Candidates(scan), SessionOf(b.sessions, id);
    ghost var objects := SessionsIn(b.sessions);
    CandidatesBounded(scan);
    NothingRead(all, s, ref, disk, folder, scan);
    pages := [];
    var cursor: Option<Token> := None;
    var more := true;
    while more
      invariant s != null && b.Valid() && SessionOf(b.sessions, id) == s && Readable(s, ref, disk, folder, scan)
      invariant SessionsIn(b.sessions) <= objects
      invariant ReadSoFar(pages, all, more) && |pages| <= 5 && (!more ==> pages != [])
      invariant more ==> StartsAt(s.cursors, cursor, ref, |pages| * MAX_DIRECTORY_ENTRIES)
      decreases more, MAX_SCANNED_ENTRIES - |pages|
    {
      PagesBounded(pages, all);
      ghost var before := b.sessions;
      var now, later := clock[2 * |pages|], clock[2 * |pages| + 1];
      assert now in clock && later in clock;
      StaysAlive(s, now, later);
      var reply := NextPage(b, id, ref, cursor, disk, now, later, folder, scan, |pages| * MAX_DIRECTORY_ENTRIES);
      FewerSessions(b.sessions, before);
      OnePageMore(pages, reply, all);
      pages := pages + [reply];
      cursor := reply.nextCursor;
      more := cursor.Some?;
    }
    AllRead(pages, all);
    ShownOnce(Shown(pages), scan);
  }

  /** A folder's children have distinct paths, so its pages repeat none. */
  lemma ShownOnce(shown: seq<Path>, scan: seq<Entry>)
    requires shown <= Candidates(scan)
    ensures Distinct(Paths(Seen(Budgeted(scan)))) ==> Distinct(shown)
  {
    if Distinct(Paths(Seen(Budgeted(scan)))) {
      SortDistinct(Seen(Budgeted(scan)));
    }
  }

  lemma FewerSessions(some: seq<Open>, all: seq<Open>)
    requires forall o | o in some :: o in all
    ensures SessionsIn(some) <= SessionsIn(all)
  {
  }

  lemma NothingRead(all: seq<Path>, s: BrowseSession?, ref: Token, disk: Disk, folder: Path, scan: seq<Entry>)
    requires Readable(s, ref, disk, folder, scan)
    ensures ReadSoFar([], all, true) && s != null && StartsAt(s.cursors, None, ref, 0)
  {
  }

  lemma StaysAlive(s: BrowseSession?, now: int, later: int)
    requires s != null && now < s.expiresAt && later < s.expiresAt
    ensures Alive(s, now, later)
  {
  }

  lemma PagesBounded(pages: seq<Reply>, all: seq<Path>)
    requires ReadSoFar(pages, all, true) && |all| <= MAX_SCANNED_ENTRIES
    ensures |pages| < 5
  {
  }

  lemma AllRead(pages: seq<Reply>, all: seq<Path>)
    requires ReadSoFar(pages, all, false)
    ensures (forall p | p in pages :: p.Listing?) && Shown(pages) <= all
    ensures (forall p | p in pages :: !p.truncated) ==> Shown(pages) == all
  {
  }

  // ---- listing a folder again ----

  /** Every entry has a live reference of its own folder. */
  ghost predicate EntriesOf(entries: seq<Listed>, refs: map<Token, Target>, ref: Token) {
    forall e | e in entries :: e.ref in refs && refs[e.ref] == Target(e.path, Some(ref))
  }

  /** In a table that only grows and stays one to one, a child listed twice has
      one reference. */
  lemma SameChildSameRef(first: seq<Listed>, second: seq<Listed>, refs: map<Token, Target>, more: map<Token, Target>,
                         byTarget: map<Target, Token>, next: Token, ref: Token)
    requires EntriesOf(first, refs, ref) && EntriesOf(second, more, ref)
    requires Extends(refs, more) && TableOk(more, byTarget, next)
    ensures forall d, e | d in first && e in second && d.path == e.path :: d.ref == e.ref
  {
    forall d, e | d in first && e in second && d.path == e.path ensures d.ref == e.ref {
      assert more[d.ref] == refs[d.ref] == Target(d.path, Some(ref)) == more[e.ref];
      assert byTarget[more[d.ref]] == d.ref && byTarget[more[e.ref]] == e.ref;
    }
  }

  // A call of list_directories.
  datatype Ask = Ask(browseId: Option<Token>, ref: Option<Token>, cursor: Option<Token>, roots: seq<Path>, disk: Disk,
                     now: int, later: int)

  /** The browse under that id, as it was or grown since; or it is gone. */
  ghost predicate GrownOrGone(b: DirectoryBrowser, id: Token, s: BrowseSession, refs0: map<Token, Target>,
                              cursors0: seq<Cursor>, next0: Token)
    reads b, s
  {
    && id < next0 <= b.next && SessionOf(b.sessions, id) in {s, null}
    && (SessionOf(b.sessions, id) == s ==> Grows(refs0, cursors0, next0, s.refs, s.cursors))
  }

  /** An id is never used again. */
  lemma SameOrGone(before: seq<Open>, after: seq<Open>, next: Token, id: Token)
    requires AllApart(before, next) && id < next
    requires forall o | o in after :: o in before || o.id >= next
    ensures SessionOf(after, id) in {SessionOf(before, id), null}
  {
    if SessionOf(after, id) != null {
      var o := FoundOpen(after, id);
      var i :| 0 <= i < |before| && before[i] == o;
      SessionAt(before, next, i);
    }
  }

  /** One more call of list_directories. */
  method ListOther(b: DirectoryBrowser, a: Ask, ghost id: Token, ghost s: BrowseSession,
                   ghost refs0: map<Token, Target>, ghost cursors0: seq<Cursor>, ghost next0: Token)
    requires b.Valid() && |a.roots| <= MAX_DIRECTORY_ENTRIES && GrownOrGone(b, id, s, refs0, cursors0, next0)
    modifies b, SessionsIn(b.sessions)
    ensures b.Valid() && GrownOrGone(b, id, s, refs0, cursors0, next0)
    ensures forall o | o in b.sessions :: o.session in old(SessionsIn(b.sessions)) || fresh(o.session)
  {
    hide DirectoryBrowser.Valid, SessionOf, Answers, Unknown, Grows, StillOpen, UsedLast, Lapsed, Begun, AllApart;
    ghost var before, drawn, refs, cursors := b.sessions, b.next, s.refs, s.cursors;
    ValidParts(b, id);
    var reply := b.ListDirectories(a.browseId, a.ref, a.cursor, a.roots, a.disk, a.now, a.later);
    SameOrGone(before, b.sessions, drawn, id);
    if SessionOf(b.sessions, id) == s {
      assert Open(id, s) in before;
      GrowsOn(refs0, cursors0, next0, refs, cursors, drawn, s.refs, s.cursors);
    }
  }

  lemma GrownSelf(b: DirectoryBrowser, id: Token, s: BrowseSession)
    requires b.Valid() && SessionOf(b.sessions, id) == s
    ensures GrownOrGone(b, id, s, s.refs, s.cursors, b.next)
  {
    ValidParts(b, id);
  }

  /** Any calls of list_directories, one after another. */
  method ListOthers(b: DirectoryBrowser, asks: seq<Ask>, ghost id: Token, ghost s: BrowseSession,
                    ghost refs0: map<Token, Target>, ghost cursors0: seq<Cursor>, ghost next0: Token)
    requires b.Valid() && GrownOrGone(b, id, s, refs0, cursors0, next0)
    requires forall a | a in asks :: |a.roots| <= MAX_DIRECTORY_ENTRIES
    modifies b, SessionsIn(b.sessions)
    ensures b.Valid() && GrownOrGone(b, id, s, refs0, cursors0, next0)
    ensures forall o | o in b.sessions :: o.session in old(SessionsIn(b.sessions)) || fresh(o.session)
  {
    hide DirectoryBrowser.Valid, GrownOrGone;
    for i := 0 to |asks|
      invariant b.Valid() && GrownOrGone(b, id, s, refs0, cursors0, next0)
      invariant forall o | o in b.sessions :: o.session in old(SessionsIn(b.sessions)) || fresh(o.session)
    {
      ListOther(b, asks[i], id, s, refs0, cursors0, next0);
    }
  }

  /** The page a listing shows. */
  lemma PageAt(reply: Reply, id: Token, expiresAt: int, disk: Disk, refs0: map<Token, Target>, cursors0: seq<Cursor>,
               ref: Token, cursor: Option<Token>, refs: map<Token, Target>, cursors: seq<Cursor>)
    returns (offset: nat, nextOffset: Option<nat>)
    requires reply.Listing? && Answers(reply, id, expiresAt, disk, refs0, cursors0, ref, cursor, refs, cursors)
    ensures StartsAt(cursors0, cursor, ref, offset)
    ensures reply.current.Some? && disk.scan(reply.current.value.path).Some?
    ensures PageOf(reply.entries, reply.truncated, nextOffset, disk.scan(reply.current.value.path).value, offset, refs, ref)
    ensures nextOffset.None? <==> reply.nextCursor.None?
    ensures EntriesOf(reply.entries, refs, ref) && Extends(refs0, refs)
  {
    hide Candidates;
    offset, nextOffset :|
      && StartsAt(cursors0, cursor, ref, offset)
      && PageOf(reply.entries, reply.truncated, nextOffset, disk.scan(reply.current.value.path).value, offset, refs, ref)
      && (nextOffset.None? <==> reply.nextCursor.None?)
      && (nextOffset.Some? ==> Cursor(reply.nextCursor.value, ref, nextOffset.value) in cursors);
  }

  /** A cursor never stands for another page. */
  lemma SameStart(refs0: map<Token, Target>, cursors0: seq<Cursor>, next0: Token, refs: map<Token, Target>,
                  cursors: seq<Cursor>, cursor: Option<Token>, ref: Token, offset0: nat, offset: nat)
    requires CursorsOk(cursors0, refs0, next0) && Grows(refs0, cursors0, next0, refs, cursors)
    requires StartsAt(cursors0, cursor, ref, offset0) && StartsAt(cursors, cursor, ref, offset)
    ensures offset == offset0
  {
    if cursor.Some? {
      var i :| 0 <= i < |cursors0| && cursors0[i] == Cursor(cursor.value, ref, offset0);
      OneToken(cursors0, i, refs0, next0);
    }
  }

  /** The folder that was listed is the same folder with the same entries. */
  ghost predicate SameFolder(first: Reply, second: Reply, disk: Disk, later: Disk)
    requires first.Listing? && second.Listing?
  {
    && first.current == second.current && first.current.Some?
    && disk.scan(first.current.value.path) == later.scan(first.current.value.path)
  }

  /** A folder listed twice, at any two times and whatever was listed in between.
      The children on both pages have the same references, whatever became of the
      disk. If the folder is still the same and the same page is asked for, the
      two listings are the same: no entry, and no reference, is lost or new. */
  method ListTwice(b: DirectoryBrowser, id: Token, ref: Token, cursor: Option<Token>, disk: Disk, between: seq<Ask>,
                   again: Option<Token>, later: Disk, clock: seq<int>)
    returns (first: Reply, second: Reply)
    requires b.Valid() && |clock| == 4 && forall a | a in between :: |a.roots| <= MAX_DIRECTORY_ENTRIES
    modifies b, SessionsIn(b.sessions)
    ensures b.Valid()
    ensures first.Listing? && second.Listing? ==>
              forall d, e | d in first.entries && e in second.entries && d.path == e.path :: d.ref == e.ref
    ensures first.Listing? && second.Listing? && again == cursor && SameFolder(first, second, disk, later) ==>
              && first.entries == second.entries && first.truncated == second.truncated
              && (first.nextCursor.None? <==> second.nextCursor.None?)
  {
    hide DirectoryBrowser.Valid, SessionOf, Answers, TableOk, CursorsOk, Grows, EntriesOf, Unknown, PageOf, StartsAt, AllApart;
    hide StillOpen, UsedLast, Lapsed, Begun;
    ghost var s := SessionOf(b.sessions, id);
    ghost var next0, refs0, cursors0 := b.next, if s == null then map[] else s.refs, if s == null then [] else s.cursors;
    ValidParts(b, id);
    first := b.ListDirectories(Some(id), Some(ref), cursor, [], disk, clock[0], clock[1]);
    if !first.Listing? {
      second := first;
      return;
    }
    ghost var next1, refs1, cursors1 := b.next, s.refs, s.cursors;
    var offset, nextOffset := PageAt(first, id, s.expiresAt, disk, refs0, cursors0, ref, cursor, refs1, cursors1);
    GrownSelf(b, id, s);
    ListOthers(b, between, id, s, refs1, cursors1, next1);
    ghost var refs2, cursors2 := s.refs, s.cursors;
    second := b.ListDirectories(Some(id), Some(ref), again, [], later, clock[2], clock[3]);
    if second.Listing? {
      GrowsOn(refs0, cursors0, next0, refs1, cursors1, next1, refs2, cursors2);
      var offset', nextOffset' := PageAt(second, id, s.expiresAt, later, refs2, cursors2, ref, again, s.refs, s.cursors);
      ValidParts(b, id);
      ExtendsOn(refs1, cursors1, next1, refs2, cursors2, s.refs);
      SameChildSameRef(first.entries, second.entries, refs1, s.refs, s.refByTarget, b.next, ref);
      if again == cursor && SameFolder(first, second, disk, later) {
        SameStart(refs0, cursors0, next0, refs2, cursors2, cursor, ref, offset, offset');
        SamePage(first.entries, first.truncated, nextOffset, refs1, second.entries, second.truncated, nextOffset', s.refs,
                 s.refByTarget, b.next, disk.scan(first.current.value.path).value, offset, ref);
      }
    }
  }

  lemma ExtendsOn(refs1: map<Token, Target>, cursors1: seq<Cursor>, next1: Token, refs2: map<Token, Target>,
                  cursors2: seq<Cursor>, refs3: map<Token, Target>)
    requires Grows(refs1, cursors1, next1, refs2, cursors2) && Extends(refs2, refs3)
    ensures Extends(refs1, refs3)
  {
  }
}
