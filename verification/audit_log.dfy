/** The audit log on disk: what a writer appends, how the tail is read back,
    and each locked block of a writer as one step. */
module AuditLog {
  import opened Texts
  import opened Wrappers
  import opened JsonValues
  import opened JsonText
  import opened Canonical
  import opened AuditVerify

  const ROTATE_MAX_BYTES := 64 * 1024 * 1024

  // ---- records ----

  datatype Entry = Entry(
    ts: FloatText,
    sessionId: string,
    machineId: string,
    shimVersion: string,
    requestId: Option<string>,
    op: string,
    details: Value,
    result: Value)

  function OptionalStr(s: Option<string>): Json {
    if s.Some? then Str(s.value) else Null
  }

  /** The record before its hmac. */
  function Body(e: Entry, number: int, prev: Option<string>): seq<Member> {
    [ Member("ts", Float(Finite(e.ts))),
      Member("session_id", Str(e.sessionId)),
      Member("machine_id", Str(e.machineId)),
      Member("shim_version", Str(e.shimVersion)),
      Member("request_id", OptionalStr(e.requestId)),
      Member("op", Str(e.op)),
      Member("details", e.details),
      Member("result", e.result),
      Member("seq", Int(number)),
      Member("prev_hmac", OptionalStr(prev)) ]
  }

  /** The record a writer appends, or None where canonicalizing it raises. */
  function Seal(e: Entry, number: int, prev: Option<string>, codec: Codec): Option<Json> {
    var text :- Canonicalize(Obj(Body(e, number, prev)));
    Some(Obj(Body(e, number, prev) + [Member("hmac", Str(codec.mac(text)))]))
  }

  /** json.dumps(record, ensure_ascii=False). */
  function Dumps(v: Json): string {
    Print(v, " ")
  }

  function DumpLine(v: Json): string {
    Dumps(v) + "\n"
  }

  // ---- reading the tail back ----

  /** Iterating a binary file: lines end at LF and keep it. */
  function LfLines(data: string, line: string): seq<string>
    decreases |data|
  {
    if data == [] then if line == [] then [] else [line]
    else if data[0] == '\n' then [line + "\n"] + LfLines(data[1..], [])
    else LfLines(data[1..], line + [data[0]])
  }

  function LastFilled(lines: seq<string>): Option<string> {
    if lines == [] then None
    else if IsBlank(lines[|lines| - 1]) then LastFilled(lines[..|lines| - 1])
    else Some(lines[|lines| - 1])
  }

  datatype Tail = Tail(number: int, prev: Option<string>)

  /** int(last.get("seq", 0)) + 1 and last.get("hmac"). */
  function TailOfRecord(ms: seq<Member>): Option<Tail> {
    var number :- if Lookup(ms, "seq").None? then Some(0) else SeqNumber(Lookup(ms, "seq"));
    match Lookup(ms, "hmac")
    case None => Some(Tail(number + 1, None))
    case Some(Null) => Some(Tail(number + 1, None))
    case Some(Str(h)) => Some(Tail(number + 1, Some(h)))
    case _ => None
  }

  /** _load_tail_state on a file's contents; None where it raises. */
  function LoadTail(data: string, codec: Codec): Option<Tail> {
    match LastFilled(LfLines(data, []))
    case None => Some(Tail(1, None))
    case Some(line) =>
      match codec.loads(line)
      case Some(Obj(ms)) => TailOfRecord(ms)
      case _ => None
  }

  // ---- the folder ----

  // A rotated log's name: the second it was rotated, and a counter for the
  // rotations that share it.
  datatype Name = Name(stamp: string, counter: nat)

  /** Inode numbers index `inodes` and are never reused. */
  datatype Disk = Disk(inodes: seq<string>, current: Option<nat>, rotated: map<Name, nat>)

  datatype Identity = Identity(inode: nat, size: nat)

  ghost predicate SoundDisk(d: Disk) {
    d.current.Some? ==> d.current.value < |d.inodes|
  }

  function IdentityOf(d: Disk): Option<Identity>
    requires SoundDisk(d)
  {
    if d.current.None? then None
    else Some(Identity(d.current.value, |d.inodes[d.current.value]|))
  }

  /** What _load_tail_state finds at the log's path. */
  function TailAtPath(d: Disk, codec: Codec): Option<Tail>
    requires SoundDisk(d)
  {
    if d.current.None? then Some(Tail(1, None)) else LoadTail(d.inodes[d.current.value], codec)
  }

  /** A new empty file at the path. */
  function CreateEmpty(d: Disk): (r: Disk)
    requires d.current.None?
    ensures SoundDisk(r)
  {
    d.(inodes := d.inodes + [[]], current := Some(|d.inodes|))
  }

  ghost function NamesFrom(names: set<Name>, stamp: string, k: nat): set<Name> {
    set n | n in names && n.stamp == stamp && n.counter >= k
  }

  /** The first counter from k on whose name is free. */
  function FreeCounter(names: set<Name>, stamp: string, k: nat): (r: nat)
    ensures k <= r && Name(stamp, r) !in names
    ensures forall c: nat | k <= c < r :: Name(stamp, c) in names
    decreases NamesFrom(names, stamp, k)
  {
    if Name(stamp, k) in names then
      assert Name(stamp, k) in NamesFrom(names, stamp, k);
      assert NamesFrom(names, stamp, k + 1) < NamesFrom(names, stamp, k);
      FreeCounter(names, stamp, k + 1)
    else k
  }

  // ---- one writer's steps ----

  datatype Writer = Writer(tail: Tail, cached: Option<Identity>)

  /** What the clock and the operating system do during one locked block. */
  datatype Weather = Weather(
    stamp: string,
    expired: bool,
    renameFails: bool,
    createFails: bool,
    appendFails: bool,
    leavesEmpty: bool)

  datatype Progress = Progress(disk: Disk, writer: Writer)

  /** _rotate. A rename that fails changes nothing; once it is done the chain
      starts over, even if the new empty file cannot be created. */
  function Rotate(d: Disk, w: Writer, sky: Weather): (r: Progress)
    requires SoundDisk(d)
    ensures SoundDisk(r.disk)
  {
    if d.current.None? || sky.renameFails then Progress(d, w)
    else
      var name := Name(sky.stamp, FreeCounter(d.rotated.Keys, sky.stamp, 0));
      var moved := d.(current := None, rotated := d.rotated[name := d.current.value]);
      var reset := w.(tail := Tail(1, None));
      if sky.createFails then Progress(moved, reset)
      else
        var made := CreateEmpty(moved);
        Progress(made, reset.(cached := IdentityOf(made)))
  }

  /** _maybe_rotate. */
  function MaybeRotate(d: Disk, w: Writer, sky: Weather): (r: Progress)
    requires SoundDisk(d)
    ensures SoundDisk(r.disk)
  {
    if d.current.None? then Progress(d, w)
    else
      var size := |d.inodes[d.current.value]|;
      if size >= ROTATE_MAX_BYTES || (size > 0 && sky.expired) then Rotate(d, w, sky)
      else Progress(d, w)
  }

  /** _append: opens the log, creating it if a rotation left none. */
  function AppendLine(d: Disk, line: string): (r: Disk)
    requires SoundDisk(d)
    ensures SoundDisk(r) && r.current.Some?
  {
    var open := if d.current.None? then CreateEmpty(d) else d;
    open.(inodes := open.inodes[open.current.value := open.inodes[open.current.value] + line])
  }

  /** One write: the record that reached the log, if any. */
  datatype Written = Written(progress: Progress, record: Option<Json>)

  /** _append_record and the cached identity after it. */
  function AppendRecord(d: Disk, w: Writer, e: Entry, sky: Weather, codec: Codec): (r: Written)
    requires SoundDisk(d)
    ensures SoundDisk(r.progress.disk)
  {
    var record := Seal(e, w.tail.number, w.tail.prev, codec);
    if record.None? then Written(Progress(d, w), None)
    else if sky.appendFails then
      Written(Progress(if d.current.None? && sky.leavesEmpty then CreateEmpty(d) else d, w), None)
    else
      var after := AppendLine(d, DumpLine(record.value));
      var next := Tail(w.tail.number + 1, StoredHmac(record.value.members));
      Written(Progress(after, Writer(next, IdentityOf(after))), record)
  }

  /** _write_sync. */
  function WriteSync(d: Disk, w: Writer, e: Entry, sky: Weather, codec: Codec): (r: Written)
    requires SoundDisk(d)
    ensures SoundDisk(r.progress.disk)
  {
    var tail := if IdentityOf(d) != w.cached then TailAtPath(d, codec) else Some(w.tail);
    if tail.None? then Written(Progress(d, w), None)
    else
      var p := MaybeRotate(d, w.(tail := tail.value), sky);
      AppendRecord(p.disk, p.writer, e, sky, codec)
  }

  /** force_rotate: an empty or missing log is left alone. */
  function ForceRotate(d: Disk, w: Writer, sky: Weather): (r: Progress)
    requires SoundDisk(d)
    ensures SoundDisk(r.disk)
  {
    if d.current.None? || d.inodes[d.current.value] == [] then Progress(d, w)
    else Rotate(d, w, sky)
  }

  datatype Opened = Opened(disk: Disk, writer: Option<Writer>)

  /** AuditWriter.__init__: a log that fails verification is refused. */
  function Open(d: Disk, sky: Weather, codec: Codec): (r: Opened)
    requires SoundDisk(d)
    ensures SoundDisk(r.disk)
  {
    if d.current.Some? && FileReport(d.inodes[d.current.value], codec) != [] then Opened(d, None)
    else
      var tail := TailAtPath(d, codec);
      if tail.None? || (d.current.None? && sky.createFails) then Opened(d, None)
      else
        var made := if d.current.None? then CreateEmpty(d) else d;
        Opened(made, Some(Writer(tail.value, IdentityOf(made))))
  }
}
