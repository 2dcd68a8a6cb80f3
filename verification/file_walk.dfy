/** FILE_LIST: a folder walked with an explicit stack under three budgets. */
module FileWalk {
  import opened Texts
  import opened Wrappers

  const MAX_FILE_LIST_ENTRIES := 10_000
  const MAX_FILE_LIST_SCANNED := 100_000

  // What the walk asks about one directory entry. `wireSize` is the size of
  // its FileEntry on the wire, or None where lstat raises.
  datatype Facts = Facts(matches: bool, sendable: bool, wireSize: Option<nat>)

  // `folder` is set for what may be entered: a directory that is neither a
  // symlink nor a junction.
  datatype Item = Item(name: string, facts: Facts, folder: Option<Folder>)

  // A folder whose scan raises does so after yielding `items`.
  datatype Folder = Folder(items: seq<Item>, readable: bool)

  type Path = seq<string>

  datatype Request = Request(recursive: bool, includeHidden: bool, maxEntries: int, budgetBytes: nat)

  function Limit(r: Request): (limit: nat)
    ensures limit <= 10_000 && limit >= 0 && (r.maxEntries <= 0 ==> limit == 0)
    ensures 0 < r.maxEntries ==> limit == r.maxEntries || (limit == 10_000 < r.maxEntries)
  {
    if r.maxEntries < 0 then 0
    else if r.maxEntries < MAX_FILE_LIST_ENTRIES then r.maxEntries
    else MAX_FILE_LIST_ENTRIES
  }

  predicate Dotted(name: string) {
    name != [] && name[0] == '.'
  }

  /** Some part of the path below the base starts with a dot. */
  predicate Hidden(path: Path) {
    exists i | 0 <= i < |path| :: Dotted(path[i])
  }

  // ---- the recursive order ----

  datatype Event = Candidate(path: Path, facts: Facts) | ScanFailed(atBase: bool)

  function Candidates(items: seq<Item>, at: Path): (r: seq<Event>)
    ensures |r| == |items|
    ensures forall i | 0 <= i < |items| :: r[i] == Candidate(at + [items[i].name], items[i].facts)
  {
    seq(|items|, i requires 0 <= i < |items| => Candidate(at + [items[i].name], items[i].facts))
  }

  predicate Enters(item: Item, r: Request) {
    r.recursive && (r.includeHidden || !Dotted(item.name)) && item.folder.Some?
  }

  /** A folder's entries, then each subfolder's walk. */
  function Events(folder: Folder, at: Path, r: Request): seq<Event>
    decreases folder
  {
    Candidates(folder.items, at)
    + if folder.readable then Below(folder.items, at, r) else [ScanFailed(at == [])]
  }

  function Below(items: seq<Item>, at: Path, r: Request): seq<Event>
    decreases items
  {
    if items == [] then []
    else
      (if Enters(items[0], r) then Events(items[0].folder.value, at + [items[0].name], r) else [])
      + Below(items[1..], at, r)
  }

  // ---- what becomes of the candidates ----

  datatype Progress = Progress(entries: seq<Path>, scanned: nat, bytes: nat, unread: bool)

  datatype Listing = Raised | Listed(entries: seq<Path>, truncated: bool)

  predicate Eligible(c: Event, r: Request) {
    c.Candidate? && (r.includeHidden || !Hidden(c.path)) && c.facts.matches && c.facts.sendable
  }

  /** The candidates that belong in a reply with room for everything. */
  predicate Wanted(c: Event, r: Request) {
    Eligible(c, r) && c.facts.wireSize.Some?
  }

  /** The reply from one point of the walk on. */
  function Reply(events: seq<Event>, p: Progress, r: Request): Listing
    decreases |events|
  {
    if events == [] then Listed(p.entries, p.unread)
    else match events[0]
      case ScanFailed(atBase) => if atBase then Raised else Reply(events[1..], p.(unread := true), r)
      case Candidate(path, facts) =>
        if p.scanned + 1 > MAX_FILE_LIST_SCANNED then Listed(p.entries, true)
        else
          var q := p.(scanned := p.scanned + 1);
          if !Eligible(events[0], r) then Reply(events[1..], q, r)
          else if |p.entries| >= Limit(r) then Listed(p.entries, true)
          else if facts.wireSize.None? then Reply(events[1..], q, r)
          else if p.bytes + facts.wireSize.value > r.budgetBytes then Listed(p.entries, true)
          else Reply(events[1..], q.(entries := p.entries + [path], bytes := p.bytes + facts.wireSize.value), r)
  }

  const Nothing := Progress([], 0, 0, false)

  // ---- the walk as it runs ----

  datatype Pending = Pending(folder: Folder, at: Path)

  /** What a stack of folders has yet to yield, its top first. */
  function StackEvents(stack: seq<Pending>, r: Request): seq<Event> {
    if stack == [] then []
    else
      var top := stack[|stack| - 1];
      Events(top.folder, top.at, r) + StackEvents(stack[..|stack| - 1], r)
  }

  function Reversed(s: seq<Pending>): seq<Pending> {
    if s == [] then [] else Reversed(s[1..]) + [s[0]]
  }

  function Subfolders(items: seq<Item>, at: Path, r: Request): seq<Pending> {
    if items == [] then []
    else
      (if Enters(items[0], r) then [Pending(items[0].folder.value, at + [items[0].name])] else [])
      + Subfolders(items[1..], at, r)
  }

  lemma OnTop(stack: seq<Pending>, top: Pending, r: Request)
    ensures StackEvents(stack + [top], r) == Events(top.folder, top.at, r) + StackEvents(stack, r)
  {
    assert (stack + [top])[..|stack|] == stack;
  }

  lemma FirstSubfolder(items: seq<Item>, at: Path, r: Request)
    requires items != [] && Enters(items[0], r)
    ensures Reversed(Subfolders(items, at, r)) ==
            Reversed(Subfolders(items[1..], at, r)) + [Pending(items[0].folder.value, at + [items[0].name])]
  {
    var subs := Subfolders(items, at, r);
    assert subs[1..] == Subfolders(items[1..], at, r);
  }

  /** Pushing the subfolders in reverse leaves them to be walked in order. */
  lemma {:induction false} PushedEvents(stack: seq<Pending>, items: seq<Item>, at: Path, r: Request)
    ensures StackEvents(stack + Reversed(Subfolders(items, at, r)), r) == Below(items, at, r) + StackEvents(stack, r)
  {
    hide Events;
    if items == [] {
      assert stack + Reversed(Subfolders(items, at, r)) == stack;
    } else {
      PushedEvents(stack, items[1..], at, r);
      if Enters(items[0], r) {
        var rest := Reversed(Subfolders(items[1..], at, r));
        var first := Pending(items[0].folder.value, at + [items[0].name]);
        FirstSubfolder(items, at, r);
        assert stack + (rest + [first]) == (stack + rest) + [first];
        OnTop(stack + rest, first, r);
        Assoc(Events(first.folder, first.at, r), Below(items[1..], at, r), StackEvents(stack, r));
      } else {
        assert Subfolders(items, at, r) == Subfolders(items[1..], at, r);
        assert Below(items, at, r) == Below(items[1..], at, r);
      }
    }
  }

  function FolderSize(f: Folder): (n: nat)
    ensures n > 0
    decreases f
  {
    1 + ItemsSize(f.items)
  }

  function ItemsSize(items: seq<Item>): nat
    decreases items
  {
    if items == [] then 0
    else (if items[0].folder.Some? then FolderSize(items[0].folder.value) else 0) + ItemsSize(items[1..])
  }

  function StackSize(stack: seq<Pending>): nat {
    if stack == [] then 0 else FolderSize(stack[|stack| - 1].folder) + StackSize(stack[..|stack| - 1])
  }

  lemma {:induction false} PushedSize(stack: seq<Pending>, items: seq<Item>, at: Path, r: Request)
    ensures StackSize(stack + Reversed(Subfolders(items, at, r))) <= StackSize(stack) + ItemsSize(items)
  {
    if items == [] {
      assert stack + Reversed(Subfolders(items, at, r)) == stack;
    } else {
      PushedSize(stack, items[1..], at, r);
      if Enters(items[0], r) {
        var first := Pending(items[0].folder.value, at + [items[0].name]);
        var subs := Subfolders(items, at, r);
        assert subs[1..] == Subfolders(items[1..], at, r);
        var all := stack + Reversed(subs);
        assert all[..|all| - 1] == stack + Reversed(Subfolders(items[1..], at, r));
      } else {
        assert Subfolders(items, at, r) == Subfolders(items[1..], at, r);
      }
    }
  }

  /** One candidate, as the consuming loop's body treats it: the progress after
      it, or None where the loop breaks. */
  function Consider(c: Event, p: Progress, r: Request): Option<Progress>
    requires c.Candidate?
  {
    if p.scanned + 1 > MAX_FILE_LIST_SCANNED then None
    else
      var q := p.(scanned := p.scanned + 1);
      if !r.includeHidden && Hidden(c.path) then Some(q)
      else if !c.facts.matches then Some(q)
      else if !c.facts.sendable then Some(q)
      else if |p.entries| >= Limit(r) then None
      else match c.facts.wireSize
        case None => Some(q)
        case Some(size) =>
          if p.bytes + size > r.budgetBytes then None
          else Some(q.(entries := p.entries + [c.path], bytes := p.bytes + size))
  }

  lemma ReplyStep(c: Event, rest: seq<Event>, p: Progress, r: Request)
    requires c.Candidate?
    ensures Reply([c] + rest, p, r) ==
            match Consider(c, p, r) case None => Listed(p.entries, true) case Some(q) => Reply(rest, q, r)
  {
    assert ([c] + rest)[1..] == rest;
  }

  /** One folder's entries, with the subfolders to enter next; `after` is what
      the walk yields once this folder's entries are done. */
  method ScanFolder(items: seq<Item>, at: Path, start: Progress, r: Request, ghost after: seq<Event>)
    returns (stopped: bool, p: Progress, subfolders: seq<Pending>)
    ensures Reply(Candidates(items, at) + after, start, r) == if stopped then Listed(p.entries, true) else Reply(after, p, r)
    ensures !stopped ==> subfolders == Subfolders(items, at, r)
  {
    hide Reply, Consider;
    p := start;
    subfolders := [];
    ghost var all := Candidates(items, at);
    assert all[0..] + after == all + after;
    for i := 0 to |items|
      invariant Reply(all[i..] + after, p, r) == Reply(all + after, start, r)
      invariant subfolders + Subfolders(items[i..], at, r) == Subfolders(items, at, r)
    {
      var c := Candidate(at + [items[i].name], items[i].facts);
      assert all[i..] + after == [c] + (all[i + 1..] + after);
      ReplyStep(c, all[i + 1..] + after, p, r);
      var next := Consider(c, p, r);
      if next.None? {
        return true, p, subfolders;
      }
      p := next.value;
      assert items[i..][1..] == items[i + 1..];
      if Enters(items[i], r) {
        subfolders := subfolders + [Pending(items[i].folder.value, at + [items[i].name])];
      }
    }
    assert all[|items|..] + after == after;
    stopped := false;
  }

  /** _walk: terminates, and replies as the recursive order says. */
  method Walk(base: Folder, r: Request) returns (reply: Listing)
    ensures reply == Reply(Events(base, [], r), Nothing, r)
  {
    var pending := [Pending(base, [])];
    var p := Nothing;
    assert StackEvents(pending, r) == Events(base, [], r) by {
      assert pending[..0] == [];
    }
    while pending != []
      invariant Reply(StackEvents(pending, r), p, r) == Reply(Events(base, [], r), Nothing, r)
      decreases StackSize(pending)
    {
      var top := pending[|pending| - 1];
      pending := pending[..|pending| - 1];
      ghost var rest :=
        if top.folder.readable then Below(top.folder.items, top.at, r) else [ScanFailed(top.at == [])];
      Assoc(Candidates(top.folder.items, top.at), rest, StackEvents(pending, r));
      var stopped, q, subfolders := ScanFolder(top.folder.items, top.at, p, r, rest + StackEvents(pending, r));
      p := q;
      if stopped {
        return Listed(p.entries, true);
      }
      if !top.folder.readable {
        assert (rest + StackEvents(pending, r))[1..] == StackEvents(pending, r);
        if top.at == [] {
          return Raised;
        }
        p := p.(unread := true);
      } else {
        PushedEvents(pending, top.folder.items, top.at, r);
        PushedSize(pending, top.folder.items, top.at, r);
        pending := pending + Reversed(subfolders);
      }
    }
    return Listed(p.entries, p.unread);
  }

  // ---- what a reply holds ----

  // The first k events: the paths that belong in a reply with room for
  // everything, their bytes, and how many entries were looked at.
  ghost function WantedPaths(events: seq<Event>, k: nat, r: Request): (paths: seq<Path>)
    requires k <= |events|
  {
    if k == 0 then []
    else WantedPaths(events, k - 1, r) + if Wanted(events[k - 1], r) then [events[k - 1].path] else []
  }

  ghost function WantedBytes(events: seq<Event>, k: nat, r: Request): nat
    requires k <= |events|
  {
    if k == 0 then 0
    else WantedBytes(events, k - 1, r) + if Wanted(events[k - 1], r) then events[k - 1].facts.wireSize.value else 0
  }

  ghost function LookedAt(events: seq<Event>, k: nat): nat
    requires k <= |events|
  {
    if k == 0 then 0 else LookedAt(events, k - 1) + if events[k - 1].Candidate? then 1 else 0
  }

  ghost predicate Unread(events: seq<Event>, k: nat)
    requires k <= |events|
  {
    exists i | 0 <= i < k :: events[i].ScanFailed?
  }

  /** Event k is an entry past the scan budget, or a match past the entry
      limit, or a match past the byte budget. */
  ghost predicate Full(events: seq<Event>, k: nat, r: Request)
    requires k < |events|
  {
    events[k].Candidate?
    && (LookedAt(events, k + 1) > MAX_FILE_LIST_SCANNED
        || (Eligible(events[k], r) && |WantedPaths(events, k, r)| >= Limit(r))
        || (Wanted(events[k], r) && WantedBytes(events, k + 1, r) > r.budgetBytes))
  }

  ghost predicate Clear(events: seq<Event>, k: nat, r: Request)
    requires k <= |events|
  {
    forall i: nat | i < k :: !Full(events, i, r) && events[i] != ScanFailed(true)
  }

  ghost function After(events: seq<Event>, k: nat, r: Request): Progress
    requires k <= |events|
  {
    Progress(WantedPaths(events, k, r), LookedAt(events, k), WantedBytes(events, k, r), Unread(events, k))
  }

  lemma OneEvent(events: seq<Event>, k: nat, r: Request)
    requires k < |events| && !Full(events, k, r) && events[k] != ScanFailed(true)
    ensures Reply(events[k..], After(events, k, r), r) == Reply(events[k + 1..], After(events, k + 1, r), r)
  {
    assert events[k..][1..] == events[k + 1..];
    var p, q := After(events, k, r), After(events, k + 1, r);
    assert q.unread <==> p.unread || events[k].ScanFailed?;
    if events[k].Candidate? {
      if Wanted(events[k], r) {
        assert q == p.(scanned := p.scanned + 1, entries := p.entries + [events[k].path],
                       bytes := p.bytes + events[k].facts.wireSize.value);
      } else {
        assert q == p.(scanned := p.scanned + 1);
      }
    } else {
      assert q == p.(unread := true);
    }
  }

  lemma {:induction false} Reaches(events: seq<Event>, k: nat, r: Request)
    requires k <= |events| && Clear(events, k, r)
    ensures Reply(events, Nothing, r) == Reply(events[k..], After(events, k, r), r)
  {
    if k == 0 {
      assert events[0..] == events;
    } else {
      Reaches(events, k - 1, r);
      OneEvent(events, k - 1, r);
    }
  }

  /** A listing is cut at its first event with no room, and only there; up to
      that it holds every candidate that belongs. */
  lemma {:induction false} ReplyIsCutWhereFull(events: seq<Event>, k: nat, r: Request)
    requires k <= |events| && Clear(events, k, r)
    requires k < |events| ==> Full(events, k, r) || events[k] == ScanFailed(true)
    ensures Reply(events, Nothing, r) ==
            (if k == |events| then Listed(WantedPaths(events, k, r), Unread(events, k))
             else if events[k] == ScanFailed(true) then Raised
             else Listed(WantedPaths(events, k, r), true))
  {
    Reaches(events, k, r);
    if k < |events| {
      assert events[k..][0] == events[k];
      if events[k].ScanFailed? {
        assert !events[k].Candidate?;
      }
    }
  }

  lemma {:induction false} FirstStop(events: seq<Event>, from: nat, r: Request) returns (k: nat)
    requires from <= |events| && Clear(events, from, r)
    ensures k <= |events| && Clear(events, k, r)
    ensures k < |events| ==> Full(events, k, r) || events[k] == ScanFailed(true)
    decreases |events| - from
  {
    k := from;
    if from < |events| && !Full(events, from, r) && events[from] != ScanFailed(true) {
      k := FirstStop(events, from + 1, r);
    }
  }

  lemma {:induction false} PrefixesGrow(events: seq<Event>, j: nat, k: nat, r: Request)
    requires j <= k <= |events|
    ensures WantedPaths(events, j, r) <= WantedPaths(events, k, r)
    ensures WantedBytes(events, j, r) <= WantedBytes(events, k, r)
    ensures LookedAt(events, j) <= LookedAt(events, k)
  {
    if j < k {
      PrefixesGrow(events, j, k - 1, r);
    }
  }

  lemma {:induction false} ClearMeansRoom(events: seq<Event>, k: nat, r: Request)
    requires k <= |events| && Clear(events, k, r)
    ensures |WantedPaths(events, k, r)| <= Limit(r)
    ensures WantedBytes(events, k, r) <= r.budgetBytes
    ensures LookedAt(events, k) <= MAX_FILE_LIST_SCANNED
  {
    if k > 0 {
      ClearMeansRoom(events, k - 1, r);
      assert !Full(events, k - 1, r);
    }
  }

  /** Every listing is a prefix of what belongs in it, in the walk's order,
      and keeps all three budgets. */
  lemma ListingKeepsBudgets(events: seq<Event>, r: Request) returns (k: nat)
    requires Reply(events, Nothing, r).Listed?
    ensures k <= |events|
    ensures Reply(events, Nothing, r).entries == WantedPaths(events, k, r) <= WantedPaths(events, |events|, r)
    ensures |Reply(events, Nothing, r).entries| <= Limit(r)
    ensures WantedBytes(events, k, r) <= r.budgetBytes && LookedAt(events, k) <= MAX_FILE_LIST_SCANNED
  {
    k := FirstStop(events, 0, r);
    ReplyIsCutWhereFull(events, k, r);
    ClearMeansRoom(events, k, r);
    PrefixesGrow(events, k, |events|, r);
  }

  /** Everything fits: the totals are within the scan and byte budgets, and
      no match comes after the last entry there is room for. */
  ghost predicate Fits(events: seq<Event>, r: Request) {
    && LookedAt(events, |events|) <= MAX_FILE_LIST_SCANNED
    && WantedBytes(events, |events|, r) <= r.budgetBytes
    && forall i: nat | i < |events| && Eligible(events[i], r) :: |WantedPaths(events, i, r)| < Limit(r)
  }

  /** A listing is not marked truncated exactly when everything fits and every
      folder was read; then it is all the candidates that belong. */
  lemma {:induction false} UntruncatedIffWhole(events: seq<Event>, r: Request)
    ensures (exists all :: Reply(events, Nothing, r) == Listed(all, false))
            <==> Fits(events, r) && !Unread(events, |events|)
    ensures Fits(events, r) && !Unread(events, |events|)
            ==> Reply(events, Nothing, r) == Listed(WantedPaths(events, |events|, r), false)
  {
    var k := FirstStop(events, 0, r);
    ReplyIsCutWhereFull(events, k, r);
    if k == |events| {
      ClearMeansRoom(events, k, r);
      assert Fits(events, r) by {
        forall i: nat | i < |events| && Eligible(events[i], r)
          ensures |WantedPaths(events, i, r)| < Limit(r)
        {
          assert !Full(events, i, r);
        }
      }
      if !Unread(events, k) {
        assert Reply(events, Nothing, r) == Listed(WantedPaths(events, k, r), false);
      }
    } else {
      PrefixesGrow(events, k + 1, |events|, r);
      if events[k].ScanFailed? {
        assert Unread(events, |events|);
      }
    }
  }

  // ---- what the walk reaches ----

  /** Without hidden entries no folder with a dotted name is entered, so a
      candidate is hidden by its own name or not at all. */
  lemma {:induction false} HiddenFoldersAreNotEntered(folder: Folder, at: Path, r: Request, e: Event)
    requires !r.includeHidden && !Hidden(at) && e in Events(folder, at, r) && e.Candidate?
    ensures e.path != [] && (Hidden(e.path) <==> Dotted(e.path[|e.path| - 1]))
    decreases folder
  {
    if e in Candidates(folder.items, at) {
      var i :| 0 <= i < |folder.items| && e == Candidate(at + [folder.items[i].name], folder.items[i].facts);
      assert e.path[|at|] == folder.items[i].name;
      assert forall j | 0 <= j < |at| :: e.path[j] == at[j];
    } else {
      HiddenBelow(folder.items, at, r, e);
    }
  }

  lemma {:induction false} HiddenBelow(items: seq<Item>, at: Path, r: Request, e: Event)
    requires !r.includeHidden && !Hidden(at) && e in Below(items, at, r) && e.Candidate?
    ensures e.path != [] && (Hidden(e.path) <==> Dotted(e.path[|e.path| - 1]))
    decreases items
  {
    if e in Below(items[1..], at, r) {
      HiddenBelow(items[1..], at, r, e);
    } else {
      var inner := at + [items[0].name];
      assert !Hidden(inner) by {
        assert forall j | 0 <= j < |at| :: inner[j] == at[j];
      }
      HiddenFoldersAreNotEntered(items[0].folder.value, inner, r, e);
    }
  }

  /** `path` names an entry of the tree below `folder`: its own, or with a
      recursive request one in a subfolder, by way of folders that are no links,
      not hidden unless hidden ones are asked for, and could be read. */
  ghost predicate Reachable(folder: Folder, path: Path, facts: Facts, r: Request)
    decreases path
  {
    path != []
    && exists i | 0 <= i < |folder.items| ::
         folder.items[i].name == path[0]
         && (if |path| == 1 then folder.items[i].facts == facts
             else
               folder.readable && r.recursive && (r.includeHidden || path[0] == [] || path[0][0] != '.')
               && folder.items[i].folder.Some? && Reachable(folder.items[i].folder.value, path[1..], facts, r))
  }

  ghost predicate Yields(events: seq<Event>, path: Path, facts: Facts) {
    exists i | 0 <= i < |events| :: events[i] == Candidate(path, facts)
  }

  lemma YieldsEither(a: seq<Event>, b: seq<Event>, path: Path, facts: Facts)
    ensures Yields(a + b, path, facts) <==> Yields(a, path, facts) || Yields(b, path, facts)
  {
    if Yields(a, path, facts) {
      var i :| 0 <= i < |a| && a[i] == Candidate(path, facts);
      assert (a + b)[i] == a[i];
    }
    if Yields(b, path, facts) {
      var i :| 0 <= i < |b| && b[i] == Candidate(path, facts);
      assert (a + b)[|a| + i] == b[i];
    }
  }

  ghost predicate BelowReachable(items: seq<Item>, path: Path, facts: Facts, r: Request) {
    |path| > 1
    && exists i | 0 <= i < |items| ::
         items[i].name == path[0] && Enters(items[i], r) && Reachable(items[i].folder.value, path[1..], facts, r)
  }

  /** The walk yields every entry it can reach and nothing else. */
  lemma {:induction false} VisitsExactlyTheReachable(folder: Folder, at: Path, path: Path, facts: Facts, r: Request)
    ensures Yields(Events(folder, at, r), at + path, facts) && path != [] <==> Reachable(folder, path, facts, r)
    decreases folder, 0
  {
    var own := Candidates(folder.items, at);
    var rest := if folder.readable then Below(folder.items, at, r) else [ScanFailed(at == [])];
    YieldsEither(own, rest, at + path, facts);
    if path != [] {
      assert Yields(own, at + path, facts) <==> |path| == 1 && exists i | 0 <= i < |folder.items| :: folder.items[i].name == path[0] && folder.items[i].facts == facts by {
        OwnEntries(folder.items, at, path, facts);
      }
      if folder.readable {
        VisitsBelow(folder.items, at, path, facts, r);
      }
    }
  }

  lemma OwnEntries(items: seq<Item>, at: Path, path: Path, facts: Facts)
    requires path != []
    ensures Yields(Candidates(items, at), at + path, facts)
            <==> |path| == 1 && exists i | 0 <= i < |items| :: items[i].name == path[0] && items[i].facts == facts
  {
    var own := Candidates(items, at);
    if Yields(own, at + path, facts) {
      var i :| 0 <= i < |own| && own[i] == Candidate(at + path, facts);
      assert |at + path| == |at + [items[i].name]|;
      assert (at + path)[|at|] == (at + [items[i].name])[|at|];
    }
    if |path| == 1 && exists i | 0 <= i < |items| :: items[i].name == path[0] && items[i].facts == facts {
      var i :| 0 <= i < |items| && items[i].name == path[0] && items[i].facts == facts;
      assert path == [items[i].name];
      assert own[i].path == at + path;
    }
  }

  lemma {:induction false} VisitsBelow(items: seq<Item>, at: Path, path: Path, facts: Facts, r: Request)
    requires path != []
    ensures Yields(Below(items, at, r), at + path, facts) <==> BelowReachable(items, path, facts, r)
    decreases items, 1
  {
    if items != [] {
      var head := if Enters(items[0], r) then Events(items[0].folder.value, at + [items[0].name], r) else [];
      YieldsEither(head, Below(items[1..], at, r), at + path, facts);
      VisitsBelow(items[1..], at, path, facts, r);
      BelowFirst(items, path, facts, r);
      if Enters(items[0], r) {
        VisitsSubfolder(items[0].folder.value, at, items[0].name, path, facts, r);
      }
    }
  }

  lemma {:induction false} VisitsSubfolder(folder: Folder, at: Path, name: string, path: Path, facts: Facts, r: Request)
    requires path != []
    ensures Yields(Events(folder, at + [name], r), at + path, facts)
            <==> |path| > 1 && path[0] == name && Reachable(folder, path[1..], facts, r)
    decreases folder, 1
  {
    hide Reachable;
    var inner := at + [name];
    if Yields(Events(folder, inner, r), at + path, facts) {
      Longer(folder, inner, at + path, facts, r);
      assert (at + path)[..|inner|][|at|] == inner[|at|];
    }
    if path[0] == name {
      assert at + path == inner + path[1..];
      VisitsExactlyTheReachable(folder, inner, path[1..], facts, r);
    }
  }

  lemma BelowFirst(items: seq<Item>, path: Path, facts: Facts, r: Request)
    requires items != [] && path != []
    ensures BelowReachable(items, path, facts, r) <==>
            BelowReachable(items[1..], path, facts, r)
            || (|path| > 1 && items[0].name == path[0] && Enters(items[0], r)
                && Reachable(items[0].folder.value, path[1..], facts, r))
  {
    if BelowReachable(items[1..], path, facts, r) {
      var i :| 0 <= i < |items[1..]| && items[1..][i].name == path[0] && Enters(items[1..][i], r)
        && Reachable(items[1..][i].folder.value, path[1..], facts, r);
      assert items[i + 1] == items[1..][i];
    }
    if BelowReachable(items, path, facts, r) {
      var i :| 0 <= i < |items| && items[i].name == path[0] && Enters(items[i], r)
        && Reachable(items[i].folder.value, path[1..], facts, r);
      if i > 0 {
        assert items[i] == items[1..][i - 1];
      }
    }
  }

  /** A candidate's path continues the path of the folder it was found in. */
  lemma {:induction false} Longer(folder: Folder, at: Path, path: Path, facts: Facts, r: Request)
    requires Yields(Events(folder, at, r), path, facts)
    ensures |path| > |at| && path[..|at|] == at
    decreases folder
  {
    var rest := if folder.readable then Below(folder.items, at, r) else [ScanFailed(at == [])];
    YieldsEither(Candidates(folder.items, at), rest, path, facts);
    if !Yields(Candidates(folder.items, at), path, facts) {
      LongerBelow(folder.items, at, path, facts, r);
    }
  }

  lemma {:induction false} LongerBelow(items: seq<Item>, at: Path, path: Path, facts: Facts, r: Request)
    requires Yields(Below(items, at, r), path, facts)
    ensures |path| > |at| && path[..|at|] == at
    decreases items
  {
    var inner := at + [items[0].name];
    var head := if Enters(items[0], r) then Events(items[0].folder.value, inner, r) else [];
    YieldsEither(head, Below(items[1..], at, r), path, facts);
    if Yields(head, path, facts) {
      Longer(items[0].folder.value, inner, path, facts, r);
      assert path[..|at|] == path[..|inner|][..|at|];
    } else {
      LongerBelow(items[1..], at, path, facts, r);
    }
  }

  // ---- which entries are listed ----

  /** An entry that belongs in a listing: not hidden by its name, unless hidden
      ones are asked for; matching, sendable, and there when it is looked at. */
  ghost predicate Belongs(path: Path, facts: Facts, r: Request)
    requires path != []
  {
    var name := path[|path| - 1];
    && (r.includeHidden || name == [] || name[0] != '.')
    && facts.matches && facts.sendable && facts.wireSize.Some?
  }

  lemma {:induction false} WantedIs(events: seq<Event>, k: nat, path: Path, r: Request)
    requires k <= |events|
    ensures path in WantedPaths(events, k, r) <==> exists i | 0 <= i < k :: Wanted(events[i], r) && events[i].path == path
  {
    if k > 0 {
      WantedIs(events, k - 1, path, r);
    }
  }

  lemma WantedBelongs(base: Folder, r: Request, e: Event)
    requires e in Events(base, [], r) && e.Candidate?
    ensures e.path != [] && (Wanted(e, r) <==> Belongs(e.path, e.facts, r))
  {
    var i :| 0 <= i < |Events(base, [], r)| && Events(base, [], r)[i] == e;
    assert Yields(Events(base, [], r), e.path, e.facts);
    Longer(base, [], e.path, e.facts, r);
    if !r.includeHidden {
      HiddenFoldersAreNotEntered(base, [], r, e);
    }
  }

  /** Whatever is listed is an entry of the tree that belongs in the listing. */
  lemma ListsOnlyWhatBelongs(base: Folder, r: Request, path: Path) returns (facts: Facts)
    requires var reply := Reply(Events(base, [], r), Nothing, r); reply.Listed? && path in reply.entries
    ensures Reachable(base, path, facts, r) && Belongs(path, facts, r)
  {
    var events := Events(base, [], r);
    var k := ListingKeepsBudgets(events, r);
    WantedIs(events, k, path, r);
    var i :| 0 <= i < k && Wanted(events[i], r) && events[i].path == path;
    facts := events[i].facts;
    assert events[i] in events;
    WantedBelongs(base, r, events[i]);
    assert Yields(events, path, facts);
    assert [] + path == path;
    VisitsExactlyTheReachable(base, [], path, facts, r);
  }

  /** And a listing not marked truncated lists every such entry. */
  lemma ListsAllThatBelong(base: Folder, r: Request, path: Path, facts: Facts)
    requires var reply := Reply(Events(base, [], r), Nothing, r); reply.Listed? && !reply.truncated
    requires Reachable(base, path, facts, r) && Belongs(path, facts, r)
    ensures path in Reply(Events(base, [], r), Nothing, r).entries
  {
    var events := Events(base, [], r);
    UntruncatedIffWhole(events, r);
    assert Reply(events, Nothing, r) == Listed(Reply(events, Nothing, r).entries, false);
    assert [] + path == path;
    VisitsExactlyTheReachable(base, [], path, facts, r);
    var i :| 0 <= i < |events| && events[i] == Candidate(path, facts);
    assert events[i] in events;
    WantedBelongs(base, r, events[i]);
    WantedIs(events, |events|, path, r);
  }
}
