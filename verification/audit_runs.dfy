/** Any number of writers on one log: every interleaving of their locked
    blocks, with the failures a block can meet. */
module AuditRuns {
  import opened Wrappers
  import opened JsonValues
  import opened Canonical
  import opened AuditVerify
  import opened AuditLog
  import opened AuditLines
  import opened AuditChain

  datatype Event =
    | Start(sky: Weather)
    | Write(writer: nat, entry: Entry, sky: Weather)
    | RotateNow(writer: nat, sky: Weather)

  // `written` lists the records in the order their writes succeeded.
  datatype State = State(disk: Disk, writers: seq<Writer>, written: seq<Json>)

  function Step(s: State, ev: Event, codec: Codec): (r: State)
    requires SoundDisk(s.disk)
    ensures SoundDisk(r.disk)
  {
    match ev
    case Start(sky) =>
      var o := Open(s.disk, sky, codec);
      s.(disk := o.disk, writers := s.writers + if o.writer.Some? then [o.writer.value] else [])
    case Write(i, e, sky) =>
      if i >= |s.writers| then s
      else
        var w := WriteSync(s.disk, s.writers[i], e, sky, codec);
        State(w.progress.disk, s.writers[i := w.progress.writer],
              s.written + if w.record.Some? then [w.record.value] else [])
    case RotateNow(i, sky) =>
      if i >= |s.writers| then s
      else
        var p := ForceRotate(s.disk, s.writers[i], sky);
        s.(disk := p.disk, writers := s.writers[i := p.writer])
  }

  /** From a machine that has never logged. */
  function Run(events: seq<Event>, codec: Codec): (s: State)
    ensures SoundDisk(s.disk)
  {
    if events == [] then State(Disk([], None, map[]), [], [])
    else Step(Run(events[..|events| - 1], codec), events[|events| - 1], codec)
  }

  ghost function Flatten(chains: seq<seq<Json>>): seq<Json> {
    if chains == [] then [] else Flatten(chains[..|chains| - 1]) + chains[|chains| - 1]
  }

  ghost predicate Invariant(s: State, chains: seq<seq<Json>>, codec: Codec) {
    && Holds(s.disk, chains, codec)
    && (forall i | 0 <= i < |s.writers| :: Agrees(s.disk, s.writers[i], chains, codec))
    && s.written == Flatten(chains)
  }

  // ---- the steps keep it ----

  lemma FlattenFresh(chains: seq<seq<Json>>)
    ensures Flatten(Fresh(chains)) == Flatten(chains)
  {
    assert Fresh(chains)[..|chains|] == chains;
  }

  lemma FlattenAppend(chains: seq<seq<Json>>, r: Json)
    requires chains != []
    ensures Flatten(Append(chains, r)) == Flatten(chains) + [r]
  {
    var last := |chains| - 1;
    assert Append(chains, r)[..last] == chains[..last];
  }

  lemma GrewOn(d: Disk, m: Disk, e: Disk)
    requires SoundDisk(d) && SoundDisk(m) && SoundDisk(e) && Grew(d, m) && Grew(m, e)
    requires m == d || m.current.None? || m.current.value >= |d.inodes|
    requires e.current == m.current || e.current.None? || e.current.value >= |m.inodes|
    ensures Grew(d, e)
  {
  }

  ghost predicate Remembers(d: Disk, w: Writer) {
    && w.cached.Some?
    && w.cached.value.inode < |d.inodes|
    && w.cached.value.size <= |d.inodes[w.cached.value.inode]|
  }

  /** One more record at the end of the log at the path. */
  lemma LineKeeps(d: Disk, w: Writer, e: Entry, chains: seq<seq<Json>>, codec: Codec)
    requires SoundCodec(codec) && Holds(d, chains, codec) && d.current.Some?
    requires w.tail == PathTail(d, chains, codec)
    requires Seal(e, w.tail.number, w.tail.prev, codec).Some?
    ensures var r := Seal(e, w.tail.number, w.tail.prev, codec).value;
            var after := AppendLine(d, DumpLine(r));
            && r.Obj?
            && Holds(after, Append(chains, r), codec)
            && Grew(d, after)
            && after != d
            && Agrees(after, Writer(Tail(w.tail.number + 1, StoredHmac(r.members)), IdentityOf(after)), Append(chains, r), codec)
            && Flatten(Append(chains, r)) == Flatten(chains) + [r]
  {
    hide Seal, Flatten, IsChain, Dumps;
    var r := Seal(e, w.tail.number, w.tail.prev, codec).value;
    SealExtends(chains[|chains| - 1], e, codec);
    AppendHolds(d, r, chains, codec);
    FlattenAppend(chains, r);
    assert |DumpLine(r)| > 0;
  }

  /** What one append leaves behind, when the writer had the true tail. */
  ghost predicate AppendedWell(d: Disk, r: Written, chains: seq<seq<Json>>, chains': seq<seq<Json>>, codec: Codec) {
    && Holds(r.progress.disk, chains', codec)
    && Grew(d, r.progress.disk)
    && (r.progress.disk == d ==> chains' == chains)
    && Agrees(r.progress.disk, r.progress.writer, chains', codec)
    && Flatten(chains') == Flatten(chains) + (if r.record.Some? then [r.record.value] else [])
    && (r.progress.disk.current == d.current || r.progress.disk.current == Some(|d.inodes|))
  }

  /** Appending with the true tail in hand. */
  lemma AppendKeeps(d: Disk, w: Writer, e: Entry, sky: Weather, chains: seq<seq<Json>>, codec: Codec)
    returns (chains': seq<seq<Json>>)
    requires SoundCodec(codec) && Holds(d, chains, codec) && Remembers(d, w)
    requires w.tail == PathTail(d, chains, codec)
    ensures AppendedWell(d, AppendRecord(d, w, e, sky, codec), chains, chains', codec)
  {
    hide Seal, Flatten, Chain, Dumps;
    var r := AppendRecord(d, w, e, sky, codec);
    if d.current.Some? {
      if r.record.Some? {
        LineKeeps(d, w, e, chains, codec);
        chains' := Append(chains, r.record.value);
      } else {
        chains' := chains;
      }
    } else {
      CreateHolds(d, chains, codec);
      FlattenFresh(chains);
      var open := CreateEmpty(d);
      if r.record.Some? {
        LineKeeps(open, w, e, Fresh(chains), codec);
        chains' := Append(Fresh(chains), r.record.value);
        assert AppendLine(open, DumpLine(r.record.value)) == AppendLine(d, DumpLine(r.record.value));
        GrewOn(d, open, r.progress.disk);
      } else {
        chains' := if r.progress.disk == d then chains else Fresh(chains);
      }
    }
  }

  lemma MaybeRotateKeeps(d: Disk, w: Writer, sky: Weather, chains: seq<seq<Json>>, codec: Codec)
    requires Holds(d, chains, codec) && Remembers(d, w) && w.tail == PathTail(d, chains, codec)
    ensures var p := MaybeRotate(d, w, sky);
            var mid := Rotated(d, p.disk, chains);
            && Holds(p.disk, mid, codec)
            && Remembers(p.disk, p.writer)
            && p.writer.tail == PathTail(p.disk, mid, codec)
            && Grew(d, p.disk)
            && (p.disk == d || p.disk.current.None? || p.disk.current.value >= |d.inodes|)
            && Flatten(mid) == Flatten(chains)
            && (p.disk == d ==> mid == chains)
            && (d.current.None? ==> p.disk == d)
  {
    hide Flatten, Chain;
    RotateKeeps(d, w, sky, chains, codec);
    FlattenFresh(chains);
  }

  ghost predicate WroteWell(d: Disk, r: Written, chains: seq<seq<Json>>, chains': seq<seq<Json>>, codec: Codec) {
    && Holds(r.progress.disk, chains', codec)
    && Grew(d, r.progress.disk)
    && (r.progress.disk == d ==> chains' == chains)
    && Agrees(r.progress.disk, r.progress.writer, chains', codec)
    && Flatten(chains') == Flatten(chains) + (if r.record.Some? then [r.record.value] else [])
  }

  lemma WriteKeeps(d: Disk, w: Writer, e: Entry, sky: Weather, chains: seq<seq<Json>>, codec: Codec)
    returns (chains': seq<seq<Json>>)
    requires SoundCodec(codec) && Holds(d, chains, codec) && Agrees(d, w, chains, codec)
    ensures WroteWell(d, WriteSync(d, w, e, sky, codec), chains, chains', codec)
  {
    hide Flatten, Holds, Grew, MaybeRotate, AppendRecord, TailAtPath, SoundCodec;
    HoldsSound(d, chains, codec);
    PathTailLoads(d, chains, codec);
    var ready := w.(tail := PathTail(d, chains, codec));
    assert ready.tail == (if IdentityOf(d) != w.cached then TailAtPath(d, codec).value else w.tail);
    MaybeRotateKeeps(d, ready, sky, chains, codec);
    var p := MaybeRotate(d, ready, sky);
    var mid := Rotated(d, p.disk, chains);
    chains' := AppendKeeps(p.disk, p.writer, e, sky, mid, codec);
    var r := AppendRecord(p.disk, p.writer, e, sky, codec);
    assert r == WriteSync(d, w, e, sky, codec);
    Unmoved(d, p.disk, r.progress.disk);
    GrewOn(d, p.disk, r.progress.disk);
  }

  lemma HoldsSound(d: Disk, chains: seq<seq<Json>>, codec: Codec)
    requires Holds(d, chains, codec)
    ensures SoundDisk(d)
  {
  }

  /** A disk that grew and came back was never changed. */
  lemma Unmoved(d: Disk, m: Disk, e: Disk)
    requires SoundDisk(d) && SoundDisk(m) && SoundDisk(e) && Grew(d, m) && Grew(m, e)
    requires m == d || m.current.None? || m.current.value >= |d.inodes|
    requires e.current == m.current || e.current == Some(|m.inodes|)
    requires d.current.None? ==> m == d
    ensures e == d ==> m == d
    ensures e.current == m.current || e.current.None? || e.current.value >= |m.inodes|
  {
  }

  /** The tail reader finds the path's true tail, and never raises. */
  lemma PathTailLoads(d: Disk, chains: seq<seq<Json>>, codec: Codec)
    requires SoundCodec(codec) && Holds(d, chains, codec)
    ensures TailAtPath(d, codec) == Some(PathTail(d, chains, codec))
  {
    if d.current.Some? {
      ChainFile(chains[d.current.value], codec);
    }
  }

  lemma OpenKeeps(d: Disk, sky: Weather, chains: seq<seq<Json>>, codec: Codec)
    requires SoundCodec(codec) && Holds(d, chains, codec)
    ensures var o := Open(d, sky, codec);
            && (o.writer.None? <==> d.current.None? && sky.createFails)
            && Grew(d, o.disk)
            && Holds(o.disk, Rotated(d, o.disk, chains), codec)
            && (o.writer.Some? ==> Agrees(o.disk, o.writer.value, Rotated(d, o.disk, chains), codec))
            && (o.disk == d ==> Rotated(d, o.disk, chains) == chains)
  {
    PathTailLoads(d, chains, codec);
    if d.current.Some? {
      ChainFile(chains[d.current.value], codec);
    } else {
      CreateHolds(d, chains, codec);
    }
  }

  lemma StepKeeps(s: State, ev: Event, chains: seq<seq<Json>>, codec: Codec)
    returns (chains': seq<seq<Json>>)
    requires SoundCodec(codec) && Invariant(s, chains, codec)
    ensures Invariant(Step(s, ev, codec), chains', codec)
  {
    hide Open, WriteSync, Rotate, Agrees, Grew;
    var t := Step(s, ev, codec);
    chains' := chains;
    match ev {
      case Start(sky) =>
        OpenKeeps(s.disk, sky, chains, codec);
        FlattenFresh(chains);
        chains' := Rotated(s.disk, t.disk, chains);
      case Write(i, e, sky) =>
        if i < |s.writers| {
          chains' := WriteKeeps(s.disk, s.writers[i], e, sky, chains, codec);
        }
      case RotateNow(i, sky) =>
        if i < |s.writers| {
          chains' := ForceKeeps(s.disk, s.writers[i], sky, chains, codec);
        }
    }
    forall i | 0 <= i < |t.writers| ensures Agrees(t.disk, t.writers[i], chains', codec) {
      if i < |s.writers| && t.writers[i] == s.writers[i] {
        OthersAgree(s.disk, t.disk, s.writers[i], chains, chains', codec);
      }
    }
  }

  lemma ForceKeeps(d: Disk, w: Writer, sky: Weather, chains: seq<seq<Json>>, codec: Codec)
    returns (chains': seq<seq<Json>>)
    requires Holds(d, chains, codec) && Agrees(d, w, chains, codec)
    ensures var p := ForceRotate(d, w, sky);
            && Holds(p.disk, chains', codec) && Grew(d, p.disk) && Agrees(p.disk, p.writer, chains', codec)
            && (p.disk == d ==> chains' == chains)
            && Flatten(chains') == Flatten(chains)
  {
    RotateKeeps(d, w, sky, chains, codec);
    FlattenFresh(chains);
    chains' := Rotated(d, ForceRotate(d, w, sky).disk, chains);
  }

  lemma {:induction false} RunKeeps(events: seq<Event>, codec: Codec) returns (chains: seq<seq<Json>>)
    requires SoundCodec(codec)
    ensures Invariant(Run(events, codec), chains, codec)
  {
    if events == [] {
      chains := [];
    } else {
      var before := RunKeeps(events[..|events| - 1], codec);
      chains := StepKeeps(Run(events[..|events| - 1], codec), events[|events| - 1], before, codec);
    }
  }

  // ---- what every run has ----

  /** The records a file holds, as the verifier reads them. */
  ghost function RecordsIn(data: string, codec: Codec): seq<Json> {
    var lines := RecordLines(data);
    seq(|lines|, i requires 0 <= i < |lines| =>
      if codec.loads(lines[i]).Some? then codec.loads(lines[i]).value else Null)
  }

  ghost function AllRecords(inodes: seq<string>, codec: Codec): seq<Json> {
    if inodes == [] then []
    else AllRecords(inodes[..|inodes| - 1], codec) + RecordsIn(inodes[|inodes| - 1], codec)
  }

  lemma ChainRecords(recs: seq<Json>, codec: Codec)
    requires SoundCodec(codec) && Chain(recs, codec)
    ensures RecordsIn(Render(recs), codec) == recs
  {
    RenderedLines(recs);
    forall i | 0 <= i < |recs| ensures RecordsIn(Render(recs), codec)[i] == recs[i] {
      assert WellFormed(recs[i]) && AllFinite(recs[i]);
      assert Lines(recs)[i] == Dumps(recs[i]);
    }
  }

  lemma {:induction false} AllChainRecords(inodes: seq<string>, chains: seq<seq<Json>>, codec: Codec)
    requires SoundCodec(codec) && |inodes| == |chains|
    requires forall i | 0 <= i < |chains| :: Chain(chains[i], codec) && inodes[i] == Render(chains[i])
    ensures AllRecords(inodes, codec) == Flatten(chains)
  {
    if inodes != [] {
      var last := |inodes| - 1;
      AllChainRecords(inodes[..last], chains[..last], codec);
      ChainRecords(chains[last], codec);
    }
  }

  /** After any run, every file verifies clean, and the files in the order they
      were created hold exactly the records written, each once, in the order
      they were written. */
  lemma {:induction false} NothingLostOrForked(events: seq<Event>, codec: Codec)
    requires SoundCodec(codec)
    ensures var s := Run(events, codec);
            && (forall i | 0 <= i < |s.disk.inodes| :: CleanFile(s.disk.inodes[i], codec))
            && AllRecords(s.disk.inodes, codec) == s.written
  {
    var chains := RunKeeps(events, codec);
    var s := Run(events, codec);
    forall i | 0 <= i < |s.disk.inodes| ensures CleanFile(s.disk.inodes[i], codec) {
      ChainFile(chains[i], codec);
      CleanIffNoViolations(s.disk.inodes[i], codec);
    }
    AllChainRecords(s.disk.inodes, chains, codec);
  }

  /** After any run, every file is either the log at the path or a rotated log
      under one name of its own: no rotation replaces another's. */
  lemma {:induction false} EveryFileHasOneName(events: seq<Event>, i: nat, codec: Codec)
    requires SoundCodec(codec) && i < |Run(events, codec).disk.inodes|
    ensures var d := Run(events, codec).disk;
            && (d.current == Some(i) <==> !IsRotated(d, i))
            && forall n, m | n in d.rotated && m in d.rotated && d.rotated[n] == i == d.rotated[m] :: n == m
  {
    var chains := RunKeeps(events, codec);
  }

  /** After any run, a writer whose cached identity still matches the file at
      the path holds that file's tail, so skipping the read changes nothing. */
  lemma {:induction false} CacheIsTrue(events: seq<Event>, i: nat, codec: Codec)
    requires SoundCodec(codec) && i < |Run(events, codec).writers|
    ensures var s := Run(events, codec);
            IdentityOf(s.disk) == s.writers[i].cached ==>
              TailAtPath(s.disk, codec) == Some(s.writers[i].tail)
  {
    var chains := RunKeeps(events, codec);
    PathTailLoads(Run(events, codec).disk, chains, codec);
    assert Agrees(Run(events, codec).disk, Run(events, codec).writers[i], chains, codec);
  }

  /** After any run, a write is lost only if the append itself fails or the
      entry holds a NaN or an infinity: neither a rotation that fails half way
      nor the tail reader stops it. */
  lemma {:induction false} WritesGoThrough(events: seq<Event>, i: nat, e: Entry, sky: Weather, codec: Codec)
    requires SoundCodec(codec) && i < |Run(events, codec).writers|
    ensures WriteSync(Run(events, codec).disk, Run(events, codec).writers[i], e, sky, codec).record.None? <==>
            sky.appendFails || !AllFinite(e.details) || !AllFinite(e.result)
  {
    var chains := RunKeeps(events, codec);
    var s := Run(events, codec);
    PathTailLoads(s.disk, chains, codec);
    var w := s.writers[i];
    var tail := if IdentityOf(s.disk) != w.cached then TailAtPath(s.disk, codec) else Some(w.tail);
    var p := MaybeRotate(s.disk, w.(tail := tail.value), sky);
    SealFails(e, p.writer.tail.number, p.writer.tail.prev, codec);
  }

  /** And a restart is refused only if the log is missing and cannot be
      created. */
  lemma {:induction false} RestartsGoThrough(events: seq<Event>, sky: Weather, codec: Codec)
    requires SoundCodec(codec)
    ensures Open(Run(events, codec).disk, sky, codec).writer.None? <==>
            Run(events, codec).disk.current.None? && sky.createFails
  {
    var chains := RunKeeps(events, codec);
    OpenKeeps(Run(events, codec).disk, sky, chains, codec);
  }

  predicate Atom(v: Json) {
    v.Null? || v.Int? || v.Str? || (v.Float? && v.x.Finite?)
  }

  lemma SealFails(e: Entry, number: int, prev: Option<string>, codec: Codec)
    ensures Seal(e, number, prev, codec).None? <==> !AllFinite(e.details) || !AllFinite(e.result)
  {
    hide Canonicalize;
    var ms := Body(e, number, prev);
    CanonicalFails(Obj(ms));
    FiniteBody(ms);
  }

  lemma FiniteBody(ms: seq<Member>)
    requires |ms| == 10 && forall i | 0 <= i < 10 && i != 6 && i != 7 :: Atom(ms[i].value)
    ensures AllFinite(Obj(ms)) <==> AllFinite(ms[6].value) && AllFinite(ms[7].value)
  {
    forall i | 0 <= i < 10 && i != 6 && i != 7 ensures AllFinite(ms[i].value) {
      assert Atom(ms[i].value);
    }
  }
}
