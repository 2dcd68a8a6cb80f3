/** What one locked step of a writer keeps: every file is one chain, and a
    writer whose cached identity still matches holds the true tail. */
module AuditChain {
  import opened Texts
  import opened Wrappers
  import opened JsonValues
  import opened JsonText
  import opened Canonical
  import opened AuditVerify
  import opened AuditLog
  import opened AuditLines

  ghost predicate SoundCodec(codec: Codec) {
    SoundMac(codec.mac) && SoundLoads(codec.loads) && Faithful(codec.loads)
  }

  // A MAC for the assumptions' sake: each character as that many ones and a zero.

  function Ones(n: nat): (t: string)
    ensures |t| == n && forall i | 0 <= i < n :: t[i] == '1'
  {
    if n == 0 then [] else "1" + Ones(n - 1)
  }

  function Spelled(text: string): string {
    if text == [] then [] else Ones(text[0] as int) + ("0" + Spelled(text[1..]))
  }

  lemma {:induction false} SpelledAscii(text: string)
    ensures IsAscii(Spelled(text))
  {
    if text != [] {
      SpelledAscii(text[1..]);
    }
  }

  lemma OnesEnd(n: nat, rest: string, m: nat, other: string)
    requires Ones(n) + ("0" + rest) == Ones(m) + ("0" + other)
    ensures n == m && rest == other
  {
    var s := Ones(n) + ("0" + rest);
    assert s[n] == '0' && s[m] == '0';
    assert forall i | 0 <= i < n :: s[i] == '1';
    assert forall i | 0 <= i < m :: s[i] == '1';
    assert s[n + 1..] == rest && s[m + 1..] == other;
  }

  lemma {:induction false} SpelledInjective(a: string, b: string)
    requires Spelled(a) == Spelled(b)
    ensures a == b
  {
    if a != [] && b != [] {
      OnesEnd(a[0] as int, Spelled(a[1..]), b[0] as int, Spelled(b[1..]));
      SpelledInjective(a[1..], b[1..]);
      assert a == [a[0]] + a[1..] && b == [b[0]] + b[1..];
    }
  }

  /** Everything assumed of the codec holds of some codec. */
  lemma SoundCodecExists()
    ensures SoundCodec(Codec(ReadLine, Spelled))
  {
    ReadLineFaithful();
    forall t ensures IsAscii(Spelled(t)) {
      SpelledAscii(t);
    }
    forall t, u | Spelled(t) == Spelled(u) ensures t == u {
      SpelledInjective(t, u);
    }
  }

  ghost predicate AllSound(recs: seq<Json>) {
    forall i | 0 <= i < |recs| :: recs[i].Obj? && WellFormed(recs[i]) && AllFinite(recs[i])
  }

  /** Records numbered from 1, each linked to the one before and MACed. */
  ghost predicate Chain(recs: seq<Json>, codec: Codec) {
    AllSound(recs) && IsChain(Lines(recs), None, 1, codec)
  }

  /** The tail state a writer needs to continue these records. */
  ghost function TailOf(recs: seq<Json>): Tail
    requires AllSound(recs)
  {
    if recs == [] then Tail(1, None) else Tail(|recs| + 1, StoredHmac(recs[|recs| - 1].members))
  }

  // ---- one record ----

  lemma BodyKeys(e: Entry, number: int, prev: Option<string>)
    ensures var ms := Body(e, number, prev);
            DistinctKeys(ms) && forall i | 0 <= i < |ms| :: ms[i].key != "hmac"
  {
    var ms := Body(e, number, prev);
    assert |"ts"| == 2 && |"op"| == 2 && |"seq"| == 3 && |"hmac"| == 4 && |"result"| == 6;
    assert |"details"| == 7 && |"prev_hmac"| == 9 && |"session_id"| == |"machine_id"| == |"request_id"| == 10;
    assert |"shim_version"| == 12;
    assert "ts"[0] != "op"[0] && "session_id"[0] != "machine_id"[0];
    assert "session_id"[0] != "request_id"[0] && "machine_id"[0] != "request_id"[0];
  }

  lemma BodySound(e: Entry, number: int, prev: Option<string>)
    ensures WellFormed(Obj(Body(e, number, prev)))
    ensures Lookup(Body(e, number, prev), "seq") == Some(Int(number))
    ensures Lookup(Body(e, number, prev), "prev_hmac") == Some(OptionalStr(prev))
  {
    hide Lookup;
    var ms := Body(e, number, prev);
    BodyKeys(e, number, prev);
    assert forall i | 0 <= i < |ms| :: WellFormed(ms[i].value);
    assert ms[8] in ms && ms[9] in ms;
    LookupIs(ms, ms[8]);
    LookupIs(ms, ms[9]);
  }

  lemma {:induction false} WithoutMissing(ms: seq<Member>, v: Json, key: string)
    requires forall i | 0 <= i < |ms| :: ms[i].key != key
    ensures Without(ms + [Member(key, v)], key) == ms
  {
    var all := ms + [Member(key, v)];
    if ms == [] {
      assert all == [Member(key, v)] && all[1..] == [];
    } else {
      assert all[1..] == ms[1..] + [Member(key, v)];
      WithoutMissing(ms[1..], v, key);
    }
  }

  lemma {:induction false} LookupAppended(ms: seq<Member>, m: Member, key: string)
    requires forall i | 0 <= i < |ms| :: ms[i].key != m.key
    ensures Lookup(ms + [m], key) == if key == m.key then Some(m.value) else Lookup(ms, key)
  {
    var all := ms + [m];
    if ms == [] {
      assert all == [m] && all[1..] == [];
    } else {
      assert all[1..] == ms[1..] + [m];
      LookupAppended(ms[1..], m, key);
    }
  }

  lemma AppendedSound(ms: seq<Member>, m: Member)
    requires WellFormed(Obj(ms)) && AllFinite(Obj(ms)) && WellFormed(m.value) && AllFinite(m.value)
    requires forall i | 0 <= i < |ms| :: ms[i].key != m.key
    ensures WellFormed(Obj(ms + [m])) && AllFinite(Obj(ms + [m]))
  {
    var all := ms + [m];
    assert forall i | 0 <= i < |ms| :: all[i] == ms[i] && WellFormed(ms[i].value) && AllFinite(ms[i].value);
    assert all[|ms|] == m;
  }

  /** Any body without an hmac, once its MAC is added. */
  lemma SignedIsAuthentic(body: seq<Member>, text: string, codec: Codec)
    requires SoundCodec(codec) && Canonicalize(Obj(body)) == Some(text)
    requires forall i | 0 <= i < |body| :: body[i].key != "hmac"
    ensures Authentic(body + [Member("hmac", Str(codec.mac(text)))], codec)
  {
    hide Lookup, Without, Canonicalize, Faithful, SoundLoads;
    var hmac := Member("hmac", Str(codec.mac(text)));
    WithoutMissing(body, hmac.value, "hmac");
    LookupAppended(body, hmac, "hmac");
  }

  lemma SealedIsAuthentic(e: Entry, number: int, prev: Option<string>, codec: Codec)
    requires SoundCodec(codec) && Seal(e, number, prev, codec).Some?
    ensures var r := Seal(e, number, prev, codec).value;
            && r.Obj? && WellFormed(r) && AllFinite(r)
            && Authentic(r.members, codec)
            && SeqNumber(Lookup(r.members, "seq")) == Some(number)
            && LinksTo(Lookup(r.members, "prev_hmac"), prev)
  {
    hide Authentic, Lookup, Without, WellFormed, AllFinite, Body, Canonicalize;
    var body := Body(e, number, prev);
    var text := Canonicalize(Obj(body)).value;
    var hmac := Member("hmac", Str(codec.mac(text)));
    BodyKeys(e, number, prev);
    BodySound(e, number, prev);
    CanonicalFails(Obj(body));
    StrSound(codec.mac(text));
    AppendedSound(body, hmac);
    SignedIsAuthentic(body, text, codec);
    LookupAppended(body, hmac, "seq");
    LookupAppended(body, hmac, "prev_hmac");
    assert "seq" != "hmac" && "prev_hmac" != "hmac" by { assert |"seq"| == 3 && |"prev_hmac"| == 9; }
  }

  lemma StrSound(s: string)
    ensures WellFormed(Str(s)) && AllFinite(Str(s))
  {
  }

  lemma LinkStored(lines: seq<string>, k: nat, codec: Codec)
    requires IsChain(lines, None, 1, codec) && k < |lines|
    ensures LinkAt(lines, k, None, 1, codec) && IsRecord(lines[k], codec)
    ensures StoredHmac(RecordOf(lines[k], codec)).Some?
    ensures SeqNumber(Lookup(RecordOf(lines[k], codec), "seq")) == Some(1 + k)
  {
  }

  /** More records after a chain leave its links as they are. */
  lemma LinksStay(recs: seq<Json>, r: Json, k: nat, codec: Codec)
    requires k < |recs| && LinkAt(Lines(recs), k, None, 1, codec)
    ensures LinkAt(Lines(recs + [r]), k, None, 1, codec)
  {
    hide Authentic, Lookup, SeqNumber, LinksTo, StoredHmac, Dumps, IsRecord, RecordOf;
    assert Lines(recs + [r])[k] == Lines(recs)[k];
    if k > 0 {
      assert Lines(recs + [r])[k - 1] == Lines(recs)[k - 1];
    }
  }

  /** A record that names the tail of a chain is its next link. */
  lemma LastLinks(recs: seq<Json>, r: Json, codec: Codec)
    requires SoundCodec(codec) && Chain(recs, codec) && r.Obj? && WellFormed(r) && AllFinite(r)
    requires Authentic(r.members, codec)
    requires SeqNumber(Lookup(r.members, "seq")) == Some(TailOf(recs).number)
    requires LinksTo(Lookup(r.members, "prev_hmac"), TailOf(recs).prev)
    ensures LinkAt(Lines(recs + [r]), |recs|, None, 1, codec)
  {
    hide Authentic, Lookup, SeqNumber, LinksTo, StoredHmac, Dumps, WellFormed, AllFinite;
    var lines, k := Lines(recs + [r]), |recs|;
    assert codec.loads(lines[k]) == Some(r);
    if k > 0 {
      LinkStored(Lines(recs), k - 1, codec);
      assert lines[k - 1] == Lines(recs)[k - 1];
      assert codec.loads(lines[k - 1]) == Some(recs[k - 1]);
    }
  }

  /** A record sealed with the chain's tail extends the chain by one. */
  lemma {:induction false} SealExtends(recs: seq<Json>, e: Entry, codec: Codec)
    requires SoundCodec(codec) && Chain(recs, codec)
    requires Seal(e, TailOf(recs).number, TailOf(recs).prev, codec).Some?
    ensures var r := Seal(e, TailOf(recs).number, TailOf(recs).prev, codec).value;
            && Chain(recs + [r], codec)
            && TailOf(recs + [r]) == Tail(TailOf(recs).number + 1, StoredHmac(r.members))
  {
    hide Seal, Authentic, Lookup, SeqNumber, LinksTo, StoredHmac, Dumps, WellFormed, AllFinite, LinkAt, Faithful, SoundMac;
    var r := Seal(e, TailOf(recs).number, TailOf(recs).prev, codec).value;
    SealedIsAuthentic(e, TailOf(recs).number, TailOf(recs).prev, codec);
    LastLinks(recs, r, codec);
    assert AllSound(recs + [r]);
    forall k | 0 <= k < |recs + [r]| ensures LinkAt(Lines(recs + [r]), k, None, 1, codec) {
      if k < |recs| {
        assert LinkAt(Lines(recs), k, None, 1, codec);
        LinksStay(recs, r, k, codec);
      }
    }
  }

  // ---- one file ----

  /** A chain's file: what the verifier and the tail reader make of it. */
  lemma ChainFile(recs: seq<Json>, codec: Codec)
    requires SoundCodec(codec) && Chain(recs, codec)
    ensures FileReport(Render(recs), codec) == []
    ensures LoadTail(Render(recs), codec) == Some(TailOf(recs))
    ensures Render(recs) == [] <==> recs == []
  {
    hide FileReport, LinkAt, Lookup, LastFilled, LfLines, Print;
    RenderedLines(recs);
    CleanIffNoViolations(Render(recs), codec);
    if recs == [] {
      assert LoadTail([], codec) == Some(Tail(1, None)) by { EmptyTail(codec); }
    } else {
      var last := |recs| - 1;
      LastLine(recs);
      LinkStored(Lines(recs), last, codec);
      assert codec.loads(Lines(recs)[last]) == Some(recs[last]);
      assert codec.loads(DumpLine(recs[last])) == Some(recs[last]);
      LastTail(recs[last].members, |recs|);
    }
  }

  lemma EmptyTail(codec: Codec)
    ensures LoadTail([], codec) == Some(Tail(1, None))
  {
  }

  lemma LastLine(recs: seq<Json>)
    requires recs != [] && AllObjects(recs)
    ensures LastFilled(LfLines(Render(recs), [])) == Some(DumpLine(recs[|recs| - 1]))
  {
    LfRendered(recs);
    ObjectNotBlank(recs[|recs| - 1]);
  }

  lemma LastTail(ms: seq<Member>, n: nat)
    requires StoredHmac(ms).Some? && SeqNumber(Lookup(ms, "seq")) == Some(n)
    ensures TailOfRecord(ms) == Some(Tail(n + 1, StoredHmac(ms)))
  {
  }

  // ---- a bool for a number ----

  /** A record numbered `true`, sealed as any other. */
  function NumberedTrue(codec: Codec): Json {
    var body := [Member("seq", Bool(true))];
    Obj(body + [Member("hmac", Str(codec.mac(if Canonicalize(Obj(body)).Some? then Canonicalize(Obj(body)).value else [])))])
  }

  /** A file that holds such a record verifies clean. */
  lemma SeqTrueIsClean(codec: Codec)
    requires SoundCodec(codec)
    ensures var r := NumberedTrue(codec);
            && Lookup(r.members, "seq") == Some(Bool(true))
            && FileReport(Render([r]), codec) == []
  {
    hide Authentic, Canonicalize, Faithful, SoundMac, SoundLoads, LinkAt, FileReport, Render;
    var r, m := NumberedTrue(codec), Member("seq", Bool(true));
    var body := [m];
    assert m.key != "hmac" by { assert |"seq"| == 3 && |"hmac"| == 4; }
    CanonicalFails(Obj(body));
    var text := Canonicalize(Obj(body)).value;
    AppendedSound(body, Member("hmac", Str(codec.mac(text))));
    SignedIsAuthentic(body, text, codec);
    LookupAppended(body, Member("hmac", Str(codec.mac(text))), "seq");
    LookupAppended(body, Member("hmac", Str(codec.mac(text))), "prev_hmac");
    assert Chain([], codec);
    LastLinks([], r, codec);
    assert [] + [r] == [r];
    assert Chain([r], codec);
    ChainFile([r], codec);
  }

  /** Only the first record of a clean file can be numbered by a bool, and only by
      `true`. */
  lemma BoolSeqIsFirst(data: string, k: nat, codec: Codec)
    requires FileReport(data, codec) == [] && data != [] && k < |RecordLines(data)|
    ensures IsRecord(RecordLines(data)[k], codec)
    ensures forall b | Lookup(RecordOf(RecordLines(data)[k], codec), "seq") == Some(Bool(b)) :: k == 0 && b
  {
    CleanIffNoViolations(data, codec);
    LinkStored(RecordLines(data), k, codec);
  }

  // ---- the folder ----

  ghost predicate IsRotated(d: Disk, i: nat) {
    exists n :: n in d.rotated && d.rotated[n] == i
  }

  /** Each inode holds the chain given for it; only the newest can be at the
      log's path, and every other one was rotated, under a name of its own. */
  ghost predicate Holds(d: Disk, chains: seq<seq<Json>>, codec: Codec) {
    && |chains| == |d.inodes|
    && (forall i | 0 <= i < |chains| :: Chain(chains[i], codec) && d.inodes[i] == Render(chains[i]))
    && (d.current.Some? ==> d.current.value + 1 == |d.inodes|)
    && (forall n | n in d.rotated :: d.rotated[n] < |d.inodes| && d.current != Some(d.rotated[n]))
    && (forall n, m | n in d.rotated && m in d.rotated && d.rotated[n] == d.rotated[m] :: n == m)
    && (forall i: nat | i < |d.inodes| && d.current != Some(i) :: IsRotated(d, i))
  }

  /** The tail of the log at the path, or of a log not there yet. */
  ghost function PathTail(d: Disk, chains: seq<seq<Json>>, codec: Codec): Tail
    requires Holds(d, chains, codec)
  {
    if d.current.None? then Tail(1, None) else TailOf(chains[d.current.value])
  }

  /** The writer remembers a file this long at most, and if that is still the
      file at the path, the tail it holds is the file's. */
  ghost predicate Agrees(d: Disk, w: Writer, chains: seq<seq<Json>>, codec: Codec)
    requires Holds(d, chains, codec)
  {
    && w.cached.Some?
    && w.cached.value.inode < |d.inodes|
    && w.cached.value.size <= |d.inodes[w.cached.value.inode]|
    && (IdentityOf(d) == w.cached ==> w.tail == PathTail(d, chains, codec))
  }

  /** `d` grew into `e`: no file lost anything it held. */
  ghost predicate Grew(d: Disk, e: Disk) {
    && |d.inodes| <= |e.inodes|
    && (forall i | 0 <= i < |d.inodes| :: |d.inodes[i]| <= |e.inodes[i]|)
    && (SoundDisk(d) && SoundDisk(e) && e != d ==>
          IdentityOf(e) == None
          || IdentityOf(e).value.inode >= |d.inodes|
          || IdentityOf(e).value.size > |d.inodes[IdentityOf(e).value.inode]|)
  }

  /** Another writer's step never leaves this one trusting a stale tail. */
  lemma OthersAgree(d: Disk, e: Disk, w: Writer, chains: seq<seq<Json>>, chains': seq<seq<Json>>, codec: Codec)
    requires Holds(d, chains, codec) && Holds(e, chains', codec) && Agrees(d, w, chains, codec)
    requires Grew(d, e) && (e == d ==> chains' == chains)
    ensures Agrees(e, w, chains', codec)
  {
  }

  /** The chains after a new empty file, and after one more record. */
  ghost function Fresh(chains: seq<seq<Json>>): seq<seq<Json>> {
    chains + [[]]
  }

  ghost function Append(chains: seq<seq<Json>>, r: Json): seq<seq<Json>>
    requires chains != []
  {
    chains[|chains| - 1 := chains[|chains| - 1] + [r]]
  }

  lemma CreateHolds(d: Disk, chains: seq<seq<Json>>, codec: Codec)
    requires Holds(d, chains, codec) && d.current.None?
    ensures Holds(CreateEmpty(d), Fresh(chains), codec)
    ensures PathTail(CreateEmpty(d), Fresh(chains), codec) == Tail(1, None)
    ensures Grew(d, CreateEmpty(d))
  {
    var e, chains' := CreateEmpty(d), Fresh(chains);
    forall i | 0 <= i < |chains'| ensures Chain(chains'[i], codec) && e.inodes[i] == Render(chains'[i]) {
      if i == |chains| {
        assert Chain([], codec);
      }
    }
    forall i: nat | i < |e.inodes| && e.current != Some(i) ensures IsRotated(e, i) {
      assert IsRotated(d, i);
    }
  }

  lemma MoveHolds(d: Disk, name: Name, chains: seq<seq<Json>>, codec: Codec)
    requires Holds(d, chains, codec) && d.current.Some? && name !in d.rotated
    ensures Holds(d.(current := None, rotated := d.rotated[name := d.current.value]), chains, codec)
  {
    var e := d.(current := None, rotated := d.rotated[name := d.current.value]);
    forall i: nat | i < |e.inodes| ensures IsRotated(e, i) {
      if d.current == Some(i) {
        assert name in e.rotated && e.rotated[name] == i;
      } else {
        assert IsRotated(d, i);
        var n :| n in d.rotated && d.rotated[n] == i;
        assert n in e.rotated && e.rotated[n] == i;
      }
    }
  }

  /** The chains the folder holds after a rotation that ended on `e`. */
  ghost function Rotated(d: Disk, e: Disk, chains: seq<seq<Json>>): seq<seq<Json>> {
    if |e.inodes| > |d.inodes| then Fresh(chains) else chains
  }

  lemma RotateKeeps(d: Disk, w: Writer, sky: Weather, chains: seq<seq<Json>>, codec: Codec)
    requires Holds(d, chains, codec) && w.cached.Some?
    requires w.cached.value.inode < |d.inodes| && w.cached.value.size <= |d.inodes[w.cached.value.inode]|
    ensures var p := Rotate(d, w, sky);
            && Holds(p.disk, Rotated(d, p.disk, chains), codec)
            && Grew(d, p.disk)
            && (p.disk == d ==> p.writer == w)
            && (p.disk != d ==>
                  p.writer.tail == PathTail(p.disk, Rotated(d, p.disk, chains), codec) == Tail(1, None)
                  && Agrees(p.disk, p.writer, Rotated(d, p.disk, chains), codec))
  {
    if d.current.Some? && !sky.renameFails {
      var name := Name(sky.stamp, FreeCounter(d.rotated.Keys, sky.stamp, 0));
      var moved := d.(current := None, rotated := d.rotated[name := d.current.value]);
      MoveHolds(d, name, chains, codec);
      assert moved != d;
      if !sky.createFails {
        CreateHolds(moved, chains, codec);
      }
    }
  }

  lemma AppendHolds(d: Disk, r: Json, chains: seq<seq<Json>>, codec: Codec)
    requires Holds(d, chains, codec) && d.current.Some?
    requires Chain(chains[|chains| - 1] + [r], codec)
    ensures Holds(AppendLine(d, DumpLine(r)), Append(chains, r), codec)
    ensures Grew(d, AppendLine(d, DumpLine(r)))
  {
    var e, chains' := AppendLine(d, DumpLine(r)), Append(chains, r);
    RenderAppend(chains[|chains| - 1], r);
    assert |DumpLine(r)| > 0;
    forall i: nat | i < |e.inodes| && e.current != Some(i) ensures IsRotated(e, i) {
      assert IsRotated(d, i);
    }
  }
}
