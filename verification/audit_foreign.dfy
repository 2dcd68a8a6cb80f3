/** One step of a writer on any log at all, whoever wrote it: what is refused,
    and what a record is chained onto. */
module AuditForeign {
  import opened Wrappers
  import opened JsonValues
  import opened Canonical
  import opened AuditVerify
  import opened AuditLog
  import opened AuditChain
  import opened AuditRotation

  /** A writer is refused exactly where the log at the path is not clean, or its
      tail cannot be read, or it is missing and cannot be created; otherwise it
      starts from the file's tail, with a new empty file where none was. */
  lemma OpensExactly(d: Disk, sky: Weather, codec: Codec)
    requires SoundDisk(d)
    ensures var o := Open(d, sky, codec);
            && (o.writer.None? <==>
                  || (d.current.Some? && !CleanFile(d.inodes[d.current.value], codec))
                  || TailAtPath(d, codec).None?
                  || (d.current.None? && sky.createFails))
            && (o.writer.None? ==> o.disk == d)
            && (o.writer.Some? && d.current.Some? ==> o.disk == d)
            && (o.writer.Some? && d.current.None? ==>
                  o.disk == Disk(d.inodes + [[]], Some(|d.inodes|), d.rotated) && o.writer.value.tail == Tail(1, None))
            && (o.writer.Some? ==>
                  Some(o.writer.value.tail) == TailAtPath(d, codec) && o.writer.value.cached == IdentityOf(o.disk))
  {
    hide FileReport, CleanFile, LoadTail;
    if d.current.Some? {
      CleanIffNoViolations(d.inodes[d.current.value], codec);
    }
  }

  /** Where another file is at the path than the writer remembers, and its tail
      cannot be read, nothing is written or rotated. */
  lemma UnreadableIsRefused(d: Disk, w: Writer, e: Entry, sky: Weather, codec: Codec)
    requires SoundDisk(d) && IdentityOf(d) != w.cached && TailAtPath(d, codec).None?
    ensures WriteSync(d, w, e, sky, codec) == Written(Progress(d, w), None)
  {
  }

  lemma BodyNumbered(e: Entry, number: int, prev: Option<string>, codec: Codec)
    requires Seal(e, number, prev, codec).Some?
    ensures var r := Seal(e, number, prev, codec).value;
            && r.Obj?
            && Lookup(r.members, "seq") == Some(Int(number))
            && Lookup(r.members, "prev_hmac") == Some(if prev.Some? then Str(prev.value) else Null)
  {
    hide Lookup, Body, Canonicalize;
    var body := Body(e, number, prev);
    var hmac := Member("hmac", Str(codec.mac(Canonicalize(Obj(body)).value)));
    BodyKeys(e, number, prev);
    BodySound(e, number, prev);
    LookupAppended(body, hmac, "seq");
    LookupAppended(body, hmac, "prev_hmac");
    assert "seq" != "hmac" && "prev_hmac" != "hmac" by { assert |"seq"| == 3 && |"prev_hmac"| == 9; }
  }

  /** A record goes to the end of the file at the path, numbered and linked to
      the tail that file has: read from it if the writer remembers another. */
  lemma ChainsOntoTheFile(d: Disk, w: Writer, e: Entry, sky: Weather, codec: Codec)
    requires SoundDisk(d) && d.current.Some? && MaybeRotate(d, w, sky).disk == d
    requires WriteSync(d, w, e, sky, codec).record.Some?
    ensures var tail := if IdentityOf(d) != w.cached then TailAtPath(d, codec) else Some(w.tail);
            var r, f := WriteSync(d, w, e, sky, codec).record.value, WriteSync(d, w, e, sky, codec).progress.disk;
            && tail.Some? && r.Obj?
            && Lookup(r.members, "seq") == Some(Int(tail.value.number))
            && Lookup(r.members, "prev_hmac") == Some(if tail.value.prev.Some? then Str(tail.value.prev.value) else Null)
            && f == d.(inodes := d.inodes[d.current.value := d.inodes[d.current.value] + (Dumps(r) + "\n")])
  {
    hide Seal, Lookup, TailAtPath, Dumps, Rotate;
    var tail := if IdentityOf(d) != w.cached then TailAtPath(d, codec) else Some(w.tail);
    var ready := w.(tail := tail.value);
    RotateMoves(d, w, sky);
    RotateMoves(d, ready, sky);
    StaysPut(d, w, ready, sky);
    BodyNumbered(e, tail.value.number, tail.value.prev, codec);
  }

  /** Whether the log is rotated does not depend on the tail. */
  lemma StaysPut(d: Disk, w: Writer, v: Writer, sky: Weather)
    requires SoundDisk(d) && d.current.Some? && MaybeRotate(d, w, sky).disk == d
    ensures MaybeRotate(d, v, sky) == Progress(d, v)
  {
    if !sky.renameFails {
      var name := Name(sky.stamp, FreeCounter(d.rotated.Keys, sky.stamp, 0));
      assert name !in d.rotated;
      assert name in d.rotated[name := d.current.value];
    }
  }
}
