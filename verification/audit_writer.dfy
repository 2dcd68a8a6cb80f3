/** AuditWriter as it runs: fields updated in place, each method proved to take
    the step the chain proofs are about. */
module AuditWriters {
  import opened Texts
  import opened Wrappers
  import opened JsonValues
  import opened AuditVerify
  import opened AuditLog

  /** The folder every writer of one log shares. */
  class LogFolder {
    var inodes: seq<string>
    var current: Option<nat>
    var rotated: map<Name, nat>

    ghost function View(): Disk
      reads this
    {
      Disk(inodes, current, rotated)
    }

    constructor ()
      ensures View() == Disk([], None, map[])
    {
      inodes, current, rotated := [], None, map[];
    }

    method CreateEmptyFile()
      requires current.None?
      modifies this
      ensures View() == CreateEmpty(old(View()))
    {
      inodes, current := inodes + [[]], Some(|inodes|);
    }

    method FileIdentity() returns (id: Option<Identity>)
      requires SoundDisk(View())
      ensures id == IdentityOf(View())
    {
      if current.None? {
        return None;
      }
      return Some(Identity(current.value, |inodes[current.value]|));
    }
  }

  lemma LastFilledStep(lines: seq<string>, i: nat)
    requires i < |lines|
    ensures LastFilled(lines[..i + 1]) == if IsBlank(lines[i]) then LastFilled(lines[..i]) else Some(lines[i])
  {
    assert lines[..i + 1][..i] == lines[..i];
  }

  class AuditWriter {
    const folder: LogFolder
    const codec: Codec
    var seqNumber: int
    var prevHmac: Option<string>
    var fileState: Option<Identity>

    ghost function View(): Writer
      reads this
    {
      Writer(Tail(seqNumber, prevHmac), fileState)
    }

    /** The fields __init__ sets once the log is verified, read and created. */
    constructor (folder: LogFolder, codec: Codec, tail: Tail, state: Option<Identity>)
      ensures this.folder == folder && this.codec == codec
      ensures View() == Writer(tail, state)
    {
      this.folder, this.codec := folder, codec;
      seqNumber, prevHmac, fileState := tail.number, tail.prev, state;
    }

    /** __init__, which raises on a log that does not verify. */
    static method OpenLog(folder: LogFolder, codec: Codec, sky: Weather) returns (w: AuditWriter?)
      requires SoundDisk(folder.View())
      modifies folder
      ensures var o := Open(old(folder.View()), sky, codec);
              && folder.View() == o.disk
              && (w == null <==> o.writer.None?)
              && (w != null ==> fresh(w) && w.folder == folder && w.codec == codec && Some(w.View()) == o.writer)
    {
      if folder.current.Some? {
        var violations := VerifyRecords(folder.inodes[folder.current.value], codec);
        if violations != [] {
          return null;
        }
      }
      var tail := LoadTailState(folder, codec);
      if tail.None? {
        return null;
      }
      if folder.current.None? {
        if sky.createFails {
          return null;
        }
        folder.CreateEmptyFile();
      }
      var state := folder.FileIdentity();
      w := new AuditWriter(folder, codec, tail.value, state);
    }

    /** _load_tail_state: the last filled line of the log, if there is one. */
    static method LoadTailState(folder: LogFolder, codec: Codec) returns (tail: Option<Tail>)
      requires SoundDisk(folder.View())
      ensures tail == TailAtPath(folder.View(), codec)
    {
      if folder.current.None? {
        return Some(Tail(1, None));
      }
      var lines := LfLines(folder.inodes[folder.current.value], []);
      var last: Option<string> := None;
      for i := 0 to |lines|
        invariant last == LastFilled(lines[..i])
      {
        LastFilledStep(lines, i);
        if !IsBlank(lines[i]) {
          last := Some(lines[i]);
        }
      }
      assert lines[..|lines|] == lines;
      if last.None? {
        return Some(Tail(1, None));
      }
      var record := codec.loads(last.value);
      if record.None? || !record.value.Obj? {
        return None;
      }
      return TailOfRecord(record.value.members);
    }

    /** write, under both locks: the record that reached the log, if any. */
    method WriteRecord(e: Entry, sky: Weather) returns (record: Option<Json>)
      requires SoundDisk(folder.View())
      modifies this, folder
      ensures var r := WriteSync(old(folder.View()), old(View()), e, sky, codec);
              folder.View() == r.progress.disk && View() == r.progress.writer && record == r.record
    {
      var now := folder.FileIdentity();
      if now != fileState {
        var tail := LoadTailState(folder, codec);
        if tail.None? {
          return None;
        }
        seqNumber, prevHmac := tail.value.number, tail.value.prev;
      }
      RotateIfDue(sky);
      record := AppendOne(e, sky);
    }

    method AppendOne(e: Entry, sky: Weather) returns (record: Option<Json>)
      requires SoundDisk(folder.View())
      modifies this, folder
      ensures var r := AppendRecord(old(folder.View()), old(View()), e, sky, codec);
              folder.View() == r.progress.disk && View() == r.progress.writer && record == r.record
    {
      var sealed := Seal(e, seqNumber, prevHmac, codec);
      if sealed.None? {
        return None;
      }
      if sky.appendFails {
        if folder.current.None? && sky.leavesEmpty {
          folder.CreateEmptyFile();
        }
        return None;
      }
      if folder.current.None? {
        folder.CreateEmptyFile();
      }
      var i := folder.current.value;
      folder.inodes := folder.inodes[i := folder.inodes[i] + DumpLine(sealed.value)];
      prevHmac := StoredHmac(sealed.value.members);
      seqNumber := seqNumber + 1;
      fileState := folder.FileIdentity();
      return sealed;
    }

    method RotateIfDue(sky: Weather)
      requires SoundDisk(folder.View())
      modifies this, folder
      ensures var p := MaybeRotate(old(folder.View()), old(View()), sky);
              folder.View() == p.disk && View() == p.writer
    {
      if folder.current.Some? {
        var size := |folder.inodes[folder.current.value]|;
        if size >= ROTATE_MAX_BYTES {
          RotateLog(sky);
        } else if size > 0 && sky.expired {
          RotateLog(sky);
        }
      }
    }

    method ForceRotation(sky: Weather)
      requires SoundDisk(folder.View())
      modifies this, folder
      ensures var p := ForceRotate(old(folder.View()), old(View()), sky);
              folder.View() == p.disk && View() == p.writer
    {
      if folder.current.Some? && folder.inodes[folder.current.value] != [] {
        RotateLog(sky);
      }
    }

    /** _rotate: the first free name, the rename, then a new empty log. */
    method RotateLog(sky: Weather)
      requires SoundDisk(folder.View())
      modifies this, folder
      ensures var p := Rotate(old(folder.View()), old(View()), sky);
              folder.View() == p.disk && View() == p.writer
    {
      var target := Name(sky.stamp, 0);
      while target in folder.rotated
        invariant target.stamp == sky.stamp
        invariant FreeCounter(folder.rotated.Keys, sky.stamp, 0) ==
                  FreeCounter(folder.rotated.Keys, sky.stamp, target.counter)
        decreases NamesFrom(folder.rotated.Keys, sky.stamp, target.counter)
      {
        var k := target.counter;
        assert target in NamesFrom(folder.rotated.Keys, sky.stamp, k);
        assert NamesFrom(folder.rotated.Keys, sky.stamp, k + 1) < NamesFrom(folder.rotated.Keys, sky.stamp, k);
        target := Name(sky.stamp, k + 1);
      }
      if folder.current.None? || sky.renameFails {
        return;
      }
      folder.rotated := folder.rotated[target := folder.current.value];
      folder.current := None;
      seqNumber, prevHmac := 1, None;
      if sky.createFails {
        return;
      }
      folder.CreateEmptyFile();
      fileState := folder.FileIdentity();
    }
  }
}
