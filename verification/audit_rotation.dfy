/** When a log is rotated, and under which name. */
module AuditRotation {
  import opened Wrappers
  import opened AuditVerify
  import opened AuditLog
  import opened AuditChain
  import opened AuditRuns
  import opened AuditRecords

  /** The event finds a log that is due: at 64 MiB, or with something in it that
      is too old, for a write; with anything in it where a rotation is asked for. */
  ghost predicate RotationDue(events: seq<Event>, ev: Event, codec: Codec) {
    var d := Run(events, codec).disk;
    d.current.Some?
    && var size := |d.inodes[d.current.value]|;
       match ev
       case Start(_) => false
       case Write(i, _, sky) => i < WritersOpened(events, codec) && (size >= 64 * 1024 * 1024 || (size > 0 && sky.expired))
       case RotateNow(i, _) => i < WritersOpened(events, codec) && size > 0
  }

  /** The log at the path was renamed to the first free name of that second. */
  ghost predicate MovedAway(d: Disk, e: Disk, stamp: string) {
    exists c: nat ::
      && Name(stamp, c) !in d.rotated
      && (forall b: nat | b < c :: Name(stamp, b) in d.rotated)
      && d.current.Some? && e.rotated == d.rotated[Name(stamp, c) := d.current.value]
  }

  lemma RotateMoves(d: Disk, w: Writer, sky: Weather)
    requires SoundDisk(d)
    ensures var e := Rotate(d, w, sky).disk;
            if d.current.Some? && !sky.renameFails
            then MovedAway(d, e, sky.stamp) && (e.current.None? <==> sky.createFails)
                 && |e.inodes| == |d.inodes| + (if sky.createFails then 0 else 1)
                 && e.inodes[..|d.inodes|] == d.inodes && (e.current.Some? ==> e.current.value == |d.inodes|)
                 && (e.current.Some? ==> e.inodes[e.current.value] == [])
            else e == d
  {
  }

  lemma AppendMovesNothing(d: Disk, w: Writer, e: Entry, sky: Weather, codec: Codec)
    requires SoundDisk(d)
    ensures var f := AppendRecord(d, w, e, sky, codec).progress.disk;
            && f.rotated == d.rotated && |d.inodes| <= |f.inodes|
            && (d.current.Some? ==> f.current == d.current)
            && (forall i | 0 <= i < |d.inodes| && d.current != Some(i) :: f.inodes[i] == d.inodes[i])
  {
    hide Seal;
  }

  ghost predicate OneMoved(d: Disk, e: Disk, due: bool, sky: Weather) {
    if due && !sky.renameFails then MovedAway(d, e, sky.stamp) else e.rotated == d.rotated
  }

  /** In every run, an event moves the log away exactly if that is due and the
      rename does not fail, and then to the first free name. */
  lemma {:induction false} RotatesWhenDue(events: seq<Event>, ev: Event, codec: Codec)
    requires SoundCodec(codec)
    ensures OneMoved(Run(events, codec).disk, Step(Run(events, codec), ev, codec).disk, RotationDue(events, ev, codec), ev.sky)
  {
    hide AppendRecord, SoundCodec, Rotate, TailAtPath, FileReport;
    var s := Run(events, codec);
    var chains := RunKeeps(events, codec);
    WritersAreOpen(events, codec);
    PathTailLoads(s.disk, chains, codec);
    match ev
    case Start(sky) =>
    case Write(i, e, sky) =>
      if i < |s.writers| {
        RotateMoves(s.disk, Ready(s, i, codec), sky);
        WriteIsAppend(s, i, e, sky, codec);
        var p := MaybeRotate(s.disk, Ready(s, i, codec), sky);
        AppendMovesNothing(p.disk, p.writer, e, sky, codec);
      }
    case RotateNow(i, sky) =>
      if i < |s.writers| {
        RotateMoves(s.disk, s.writers[i], sky);
      }
  }

  /** A writer about to write, with the tail of what is at the path. */
  ghost function Ready(s: State, i: nat, codec: Codec): Writer
    requires i < |s.writers| && SoundDisk(s.disk)
  {
    var w, tail := s.writers[i], TailAtPath(s.disk, codec);
    if IdentityOf(s.disk) != w.cached && tail.Some? then w.(tail := tail.value) else w
  }

  lemma WriteIsAppend(s: State, i: nat, e: Entry, sky: Weather, codec: Codec)
    requires SoundDisk(s.disk) && i < |s.writers| && TailAtPath(s.disk, codec).Some?
    ensures var p := MaybeRotate(s.disk, Ready(s, i, codec), sky);
            Step(s, Write(i, e, sky), codec).disk == AppendRecord(p.disk, p.writer, e, sky, codec).progress.disk
  {
    hide AppendRecord, MaybeRotate, TailAtPath;
    var w := s.writers[i];
    assert w.(tail := w.tail) == w;
  }

  /** In every run, a file that has reached 64 MiB takes another record only where
      renaming it failed. */
  lemma {:induction false} GrowsOnlyBelowLimit(events: seq<Event>, ev: Event, i: nat, codec: Codec)
    requires SoundCodec(codec) && i < |Run(events, codec).disk.inodes|
    requires |Run(events, codec).disk.inodes[i]| >= 64 * 1024 * 1024
    ensures var d, e := Run(events, codec).disk, Step(Run(events, codec), ev, codec).disk;
            i < |e.inodes| && (e.inodes[i] != d.inodes[i] ==> ev.Write? && d.current == Some(i) && ev.sky.renameFails)
  {
    hide AppendRecord, SoundCodec, Rotate, TailAtPath, FileReport;
    var s := Run(events, codec);
    var chains := RunKeeps(events, codec);
    PathTailLoads(s.disk, chains, codec);
    match ev
    case Start(sky) =>
    case Write(k, e, sky) =>
      if k < |s.writers| {
        RotateMoves(s.disk, Ready(s, k, codec), sky);
        WriteIsAppend(s, k, e, sky, codec);
        var p := MaybeRotate(s.disk, Ready(s, k, codec), sky);
        AppendMovesNothing(p.disk, p.writer, e, sky, codec);
      }
    case RotateNow(k, sky) =>
      if k < |s.writers| {
        RotateMoves(s.disk, s.writers[k], sky);
      }
  }
}
