/** What the records of the log hold of the entries that were written. */
module AuditRecords {
  import opened Wrappers
  import opened JsonValues
  import opened Canonical
  import opened AuditVerify
  import opened AuditLog
  import opened AuditChain
  import opened AuditRuns

  /** Read by key, the record is the entry's. */
  ghost predicate Carries(record: Json, e: Entry) {
    && record.Obj?
    && Lookup(record.members, "ts") == Some(Float(Finite(e.ts)))
    && Lookup(record.members, "session_id") == Some(Str(e.sessionId))
    && Lookup(record.members, "machine_id") == Some(Str(e.machineId))
    && Lookup(record.members, "shim_version") == Some(Str(e.shimVersion))
    && Lookup(record.members, "request_id") == Some(if e.requestId.Some? then Str(e.requestId.value) else Null)
    && Lookup(record.members, "op") == Some(Str(e.op))
    && Lookup(record.members, "details") == Some(e.details)
    && Lookup(record.members, "result") == Some(e.result)
  }

  lemma BodyCarries(e: Entry, number: int, prev: Option<string>)
    ensures Carries(Obj(Body(e, number, prev)), e)
  {
    hide Lookup;
    var ms := Body(e, number, prev);
    BodyKeys(e, number, prev);
    assert forall i | 0 <= i < |ms| :: ms[i] in ms;
    LookupIs(ms, ms[0]);
    LookupIs(ms, ms[1]);
    LookupIs(ms, ms[2]);
    LookupIs(ms, ms[3]);
    LookupIs(ms, ms[4]);
    LookupIs(ms, ms[5]);
    LookupIs(ms, ms[6]);
    LookupIs(ms, ms[7]);
  }

  lemma HmacIsApart()
    ensures "hmac" !in ["ts", "session_id", "machine_id", "shim_version", "request_id", "op", "details", "result"]
  {
    assert |"ts"| == |"op"| == 2 && |"session_id"| == |"machine_id"| == |"request_id"| == 10;
    assert |"hmac"| == 4 && |"shim_version"| == 12 && |"details"| == 7 && |"result"| == 6;
  }

  lemma SealedCarries(e: Entry, number: int, prev: Option<string>, codec: Codec)
    requires Seal(e, number, prev, codec).Some?
    ensures Carries(Seal(e, number, prev, codec).value, e)
  {
    hide Lookup, Body, Canonicalize;
    var body := Body(e, number, prev);
    var hmac := Member("hmac", Str(codec.mac(Canonicalize(Obj(body)).value)));
    BodyCarries(e, number, prev);
    BodyKeys(e, number, prev);
    HmacIsApart();
    forall key: string | key != "hmac" ensures Lookup(body + [hmac], key) == Lookup(body, key) {
      LookupAppended(body, hmac, key);
    }
  }

  /** How many writers were opened: every start but those that found no log and
      could not create one. */
  ghost function WritersOpened(events: seq<Event>, codec: Codec): nat {
    if events == [] then 0
    else
      var before, last := events[..|events| - 1], events[|events| - 1];
      WritersOpened(before, codec)
      + if last.Start? && !(Run(before, codec).disk.current.None? && last.sky.createFails) then 1 else 0
  }

  lemma {:induction false} WritersAreOpen(events: seq<Event>, codec: Codec)
    requires SoundCodec(codec)
    ensures |Run(events, codec).writers| == WritersOpened(events, codec)
  {
    hide WriteSync, Open, ForceRotate, SoundCodec;
    if events != [] {
      var before := events[..|events| - 1];
      WritersAreOpen(before, codec);
      if events[|events| - 1].Start? {
        RestartsGoThrough(before, events[|events| - 1].sky, codec);
      }
    }
  }

  /** The entry of the last event, if it is a write that must go through: by an
      open writer, of an entry without NaN or infinity, with the append not
      failing. */
  ghost function EntryWritten(events: seq<Event>, codec: Codec): Option<Entry>
    requires events != []
  {
    match events[|events| - 1]
    case Write(i, e, sky) =>
      if i < WritersOpened(events[..|events| - 1], codec) && !sky.appendFails && AllFinite(e.details) && AllFinite(e.result)
      then Some(e) else None
    case _ => None
  }

  /** The entries of all such writes, in order. */
  ghost function EntriesWritten(events: seq<Event>, codec: Codec): seq<Entry> {
    if events == [] then []
    else
      EntriesWritten(events[..|events| - 1], codec)
      + if EntryWritten(events, codec).Some? then [EntryWritten(events, codec).value] else []
  }

  ghost predicate EachCarries(records: seq<Json>, entries: seq<Entry>) {
    |records| == |entries| && forall i | 0 <= i < |records| :: Carries(records[i], entries[i])
  }

  lemma WrittenCarries(d: Disk, w: Writer, e: Entry, sky: Weather, codec: Codec)
    requires SoundDisk(d) && WriteSync(d, w, e, sky, codec).record.Some?
    ensures Carries(WriteSync(d, w, e, sky, codec).record.value, e)
  {
    hide Seal, Carries, TailAtPath, MaybeRotate;
    var tail := if IdentityOf(d) != w.cached then TailAtPath(d, codec) else Some(w.tail);
    var p := MaybeRotate(d, w.(tail := tail.value), sky);
    SealedCarries(e, p.writer.tail.number, p.writer.tail.prev, codec);
  }

  lemma {:induction false} WrittenAreEntries(events: seq<Event>, codec: Codec)
    requires SoundCodec(codec)
    ensures EachCarries(Run(events, codec).written, EntriesWritten(events, codec))
  {
    hide Carries, WriteSync, Open, ForceRotate, SoundCodec;
    if events != [] {
      var before := events[..|events| - 1];
      WrittenAreEntries(before, codec);
      WritersAreOpen(before, codec);
      match events[|events| - 1] {
        case Write(i, e, sky) =>
          var s := Run(before, codec);
          if i < |s.writers| {
            WritesGoThrough(before, i, e, sky, codec);
            if WriteSync(s.disk, s.writers[i], e, sky, codec).record.Some? {
              WrittenCarries(s.disk, s.writers[i], e, sky, codec);
            }
          }
        case _ =>
      }
    }
  }

  /** After any run, the files in the order they were created hold one record for
      each write that had to go through, in order, and each holds its entry. */
  lemma {:induction false} RecordsAreEntries(events: seq<Event>, codec: Codec)
    requires SoundCodec(codec)
    ensures EachCarries(AllRecords(Run(events, codec).disk.inodes, codec), EntriesWritten(events, codec))
  {
    NothingLostOrForked(events, codec);
    WrittenAreEntries(events, codec);
  }
}
