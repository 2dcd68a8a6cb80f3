/** Chain verification of one audit log file, and what a clean file is. */
module AuditVerify {
  import opened Texts
  import opened Wrappers
  import opened JsonValues
  import opened Canonical

  /** What the audit module takes from elsewhere: json.loads on one line, and
      the keyed MAC of a canonical text as a hex digest. */
  datatype Codec = Codec(loads: string -> Option<Json>, mac: string -> string)

  /** json.loads builds dicts, whose keys are distinct. */
  ghost predicate SoundLoads(loads: string -> Option<Json>) {
    forall line :: loads(line).Some? ==> WellFormed(loads(line).value)
  }

  /** The MAC is injective and its digests are plain ASCII. */
  ghost predicate SoundMac(mac: string -> string) {
    && (forall t :: IsAscii(mac(t)))
    && (forall t, u :: mac(t) == mac(u) ==> t == u)
  }

  // ---- lines ----

  /** bytes.splitlines(): a line ends at LF, CR or CR LF. `line` is what has
      been read of the current one. */
  function SplitLines(data: string, line: string): seq<string>
    decreases |data|
  {
    if data == [] then if line == [] then [] else [line]
    else if data[0] == '\n' then [line] + SplitLines(data[1..], [])
    else if data[0] == '\r' then
      [line] + SplitLines(data[if |data| > 1 && data[1] == '\n' then 2 else 1..], [])
    else SplitLines(data[1..], line + [data[0]])
  }

  /** The lines with something on them. */
  function Filled(lines: seq<string>): seq<string> {
    if lines == [] then []
    else if IsBlank(lines[0]) then Filled(lines[1..])
    else [lines[0]] + Filled(lines[1..])
  }

  function RecordLines(data: string): seq<string> {
    Filled(SplitLines(data, []))
  }

  predicate EndsInNewline(data: string) {
    data != [] && data[|data| - 1] == '\n'
  }

  // ---- records ----

  /** The int a record's seq holds. A bool is an int to Python. */
  function SeqNumber(v: Option<Json>): Option<int> {
    match v
    case Some(Int(n)) => Some(n)
    case Some(Bool(b)) => Some(if b then 1 else 0)
    case _ => None
  }

  /** record.get("prev_hmac") == prev_hmac. */
  predicate LinksTo(stored: Option<Json>, prev: Option<string>) {
    match prev
    case None => stored == None || stored == Some(Null)
    case Some(h) => stored == Some(Str(h))
  }

  function StoredHmac(ms: seq<Member>): Option<string> {
    match Lookup(ms, "hmac")
    case Some(Str(h)) => Some(h)
    case _ => None
  }

  /** The MAC input of a record: its canonical text without the hmac. */
  function Shadow(ms: seq<Member>): Json {
    Obj(Without(ms, "hmac"))
  }

  /** The record's stored hmac is the MAC of its canonical text. */
  predicate Authentic(ms: seq<Member>, codec: Codec) {
    && StoredHmac(ms).Some?
    && IsAscii(StoredHmac(ms).value)
    && Canonicalize(Shadow(ms)).Some?
    && codec.mac(Canonicalize(Shadow(ms)).value) == StoredHmac(ms).value
  }

  // ---- the report ----

  datatype Kind = ParseError | HmacMismatch | ChainBreak | SequenceGap | Truncated | MissingField

  datatype Violation = Violation(kind: Kind, number: Option<int>)

  /** What one line adds to the report: either the reading stops there, or it
      goes on with the hmac and the number the next record should follow. */
  datatype Verdict =
    | Stop(found: seq<Violation>)
    | Continue(found: seq<Violation>, hmac: string, number: int)

  function Judge(line: string, prev: Option<string>, expected: int, codec: Codec): Verdict {
    match codec.loads(line)
    case Some(Obj(ms)) => JudgeRecord(ms, prev, expected, codec)
    case _ => Stop([Violation(ParseError, None)])
  }

  function JudgeRecord(ms: seq<Member>, prev: Option<string>, expected: int, codec: Codec): Verdict {
    var number := SeqNumber(Lookup(ms, "seq"));
    if number.None? then Stop([Violation(MissingField, None)])
    else
      var gap := if number.value != expected then [Violation(SequenceGap, number)] else [];
      var broken := if LinksTo(Lookup(ms, "prev_hmac"), prev) then [] else [Violation(ChainBreak, number)];
      var stored := StoredHmac(ms);
      if stored.None? then Stop(gap + broken + [Violation(MissingField, number)])
      else if Canonicalize(Shadow(ms)).None? then Stop(gap + broken + [Violation(ParseError, number)])
      else
        var forged := if Authentic(ms, codec) then [] else [Violation(HmacMismatch, number)];
        Continue(gap + broken + forged, stored.value, number.value)
  }

  /** The violations of the lines from one point on, given the hmac and the
      number the next record is expected to carry. */
  function Report(lines: seq<string>, prev: Option<string>, expected: int, codec: Codec)
    : seq<Violation>
  {
    if lines == [] then []
    else match Judge(lines[0], prev, expected, codec)
      case Stop(found) => found
      case Continue(found, hmac, number) =>
        found + Report(lines[1..], Some(hmac), number + 1, codec)
  }

  function FileReport(data: string, codec: Codec): seq<Violation> {
    if data == [] then []
    else
      (if EndsInNewline(data) then [] else [Violation(Truncated, None)])
      + Report(RecordLines(data), None, 1, codec)
  }

  /** One turn of the verifier's loop, on an object. */
  method CheckRecord(ms: seq<Member>, prev: Option<string>, expected: int, codec: Codec)
    returns (verdict: Verdict)
    ensures verdict == JudgeRecord(ms, prev, expected, codec)
  {
    hide Canonicalize, Lookup, Without, SeqNumber, LinksTo, StoredHmac, IsAscii;
    var found: seq<Violation> := [];
    var number := SeqNumber(Lookup(ms, "seq"));
    if number.None? {
      return Stop([Violation(MissingField, None)]);
    }
    if number.value != expected {
      found := found + [Violation(SequenceGap, number)];
    }
    if !LinksTo(Lookup(ms, "prev_hmac"), prev) {
      found := found + [Violation(ChainBreak, number)];
    }
    var stored := StoredHmac(ms);
    if stored.None? {
      return Stop(found + [Violation(MissingField, number)]);
    }
    var canonical := Canonicalize(Shadow(ms));
    if canonical.None? {
      return Stop(found + [Violation(ParseError, number)]);
    }
    if !IsAscii(stored.value) || codec.mac(canonical.value) != stored.value {
      found := found + [Violation(HmacMismatch, number)];
    }
    return Continue(found, stored.value, number.value);
  }

  /** What the lines from i on add, read off one line. */
  lemma ReportStep(raws: seq<string>, i: nat, prev: Option<string>, expected: int, codec: Codec)
    requires i < |raws|
    ensures var rest := Filled(raws[i + 1..]);
            Report(Filled(raws[i..]), prev, expected, codec) ==
            if IsBlank(raws[i]) then Report(rest, prev, expected, codec)
            else match Judge(raws[i], prev, expected, codec)
              case Stop(found) => found
              case Continue(found, hmac, number) => found + Report(rest, Some(hmac), number + 1, codec)
  {
    hide Judge;
    assert raws[i..][1..] == raws[i + 1..];
    if !IsBlank(raws[i]) {
      assert Filled(raws[i..])[1..] == Filled(raws[i + 1..]);
    }
  }

  /** The verifier's loop over the lines. */
  method ScanLines(raws: seq<string>, codec: Codec) returns (found: seq<Violation>)
    ensures found == Report(Filled(raws), None, 1, codec)
  {
    hide JudgeRecord, Filled, Report, IsBlank;
    found := [];
    var prev: Option<string> := None;
    var expected := 1;
    assert raws[0..] == raws;
    for i := 0 to |raws|
      invariant found + Report(Filled(raws[i..]), prev, expected, codec) == Report(Filled(raws), None, 1, codec)
    {
      ReportStep(raws, i, prev, expected, codec);
      if !IsBlank(raws[i]) {
        var record := codec.loads(raws[i]);
        if record.None? || !record.value.Obj? {
          found := found + [Violation(ParseError, None)];
          return;
        }
        var verdict := CheckRecord(record.value.members, prev, expected, codec);
        ghost var sofar := found;
        found := found + verdict.found;
        if verdict.Stop? {
          return;
        }
        prev := Some(verdict.hmac);
        expected := verdict.number + 1;
        Assoc(sofar, verdict.found, Report(Filled(raws[i + 1..]), prev, expected, codec));
      }
    }
    NothingLeft(raws, prev, expected, codec);
  }

  /** verify_records: silent exactly on the clean files. */
  method VerifyRecords(data: string, codec: Codec) returns (violations: seq<Violation>)
    ensures violations == FileReport(data, codec)
    ensures violations == [] <==> CleanFile(data, codec)
  {
    hide Report, Filled, CleanFile, SplitLines;
    CleanIffNoViolations(data, codec);
    violations := [];
    if data == [] {
      return;
    }
    if !EndsInNewline(data) {
      violations := violations + [Violation(Truncated, None)];
    }
    var found := ScanLines(SplitLines(data, []), codec);
    violations := violations + found;
  }

  lemma NothingLeft(raws: seq<string>, prev: Option<string>, expected: int, codec: Codec)
    ensures Report(Filled(raws[|raws|..]), prev, expected, codec) == []
  {
    assert raws[|raws|..] == [];
  }

  // ---- what a clean file is ----

  ghost predicate IsRecord(line: string, codec: Codec) {
    codec.loads(line).Some? && codec.loads(line).value.Obj?
  }

  ghost function RecordOf(line: string, codec: Codec): seq<Member>
    requires IsRecord(line, codec)
  {
    codec.loads(line).value.members
  }

  /** Line k holds record number `start + k`, linked to the line before it
      (the first to `prev`), with the right MAC. */
  ghost predicate LinkAt(lines: seq<string>, k: nat, prev: Option<string>, start: int, codec: Codec)
    requires k < |lines|
  {
    && IsRecord(lines[k], codec)
    && var ms := RecordOf(lines[k], codec);
    && SeqNumber(Lookup(ms, "seq")) == Some(start + k)
    && Authentic(ms, codec)
    && if k == 0 then LinksTo(Lookup(ms, "prev_hmac"), prev)
       else
         && IsRecord(lines[k - 1], codec)
         && StoredHmac(RecordOf(lines[k - 1], codec)).Some?
         && LinksTo(Lookup(ms, "prev_hmac"), StoredHmac(RecordOf(lines[k - 1], codec)))
  }

  ghost predicate IsChain(lines: seq<string>, prev: Option<string>, start: int, codec: Codec) {
    forall k | 0 <= k < |lines| :: LinkAt(lines, k, prev, start, codec)
  }

  /** Empty, or newline-terminated with its filled lines forming one chain
      numbered from 1. */
  ghost predicate CleanFile(data: string, codec: Codec) {
    data == [] || (EndsInNewline(data) && IsChain(RecordLines(data), None, 1, codec))
  }

  lemma ChainHeadTail(lines: seq<string>, prev: Option<string>, start: int, codec: Codec)
    requires lines != [] && LinkAt(lines, 0, prev, start, codec)
    ensures IsChain(lines, prev, start, codec) <==>
            IsChain(lines[1..], StoredHmac(RecordOf(lines[0], codec)), start + 1, codec)
  {
    var hmac := StoredHmac(RecordOf(lines[0], codec));
    forall k | 1 <= k < |lines|
      ensures LinkAt(lines, k, prev, start, codec) <==> LinkAt(lines[1..], k - 1, hmac, start + 1, codec)
    {
      assert lines[k] == lines[1..][k - 1];
      if k > 1 {
        assert lines[k - 1] == lines[1..][k - 2];
      }
    }
    if IsChain(lines, prev, start, codec) {
      forall k: nat {:trigger lines[1..][k]} | k < |lines[1..]| ensures LinkAt(lines[1..], k, hmac, start + 1, codec) {
        assert LinkAt(lines, k + 1, prev, start, codec);
      }
    }
  }

  lemma JudgeIsLink(lines: seq<string>, prev: Option<string>, start: int, codec: Codec)
    requires lines != []
    ensures LinkAt(lines, 0, prev, start, codec) <==>
            (var v := Judge(lines[0], prev, start, codec); v.Continue? && v.found == [])
    ensures LinkAt(lines, 0, prev, start, codec) ==> IsRecord(lines[0], codec)
    ensures LinkAt(lines, 0, prev, start, codec) ==>
              (var v := Judge(lines[0], prev, start, codec);
               Some(v.hmac) == StoredHmac(RecordOf(lines[0], codec)) && v.number == start)
  {
    hide Lookup, SeqNumber, LinksTo, StoredHmac, Canonicalize, IsAscii, Without;
  }

  lemma {:induction false} EmptyReportIsChain(lines: seq<string>, prev: Option<string>, start: int, codec: Codec)
    ensures Report(lines, prev, start, codec) == [] <==> IsChain(lines, prev, start, codec)
  {
    hide Judge, LinkAt;
    if lines != [] {
      JudgeIsLink(lines, prev, start, codec);
      if LinkAt(lines, 0, prev, start, codec) {
        EmptyReportIsChain(lines[1..], StoredHmac(RecordOf(lines[0], codec)), start + 1, codec);
        ChainHeadTail(lines, prev, start, codec);
      } else {
        StopIsViolation(lines[0], prev, start, codec);
      }
    }
  }

  lemma StopIsViolation(line: string, prev: Option<string>, start: int, codec: Codec)
    ensures Judge(line, prev, start, codec).Stop? ==> Judge(line, prev, start, codec).found != []
  {
  }

  /** The verifier is silent exactly on the clean files. */
  lemma CleanIffNoViolations(data: string, codec: Codec)
    ensures FileReport(data, codec) == [] <==> CleanFile(data, codec)
  {
    EmptyReportIsChain(RecordLines(data), None, 1, codec);
  }

  // ---- the last hmac fixes the whole file ----

  ghost function HmacAt(lines: seq<string>, k: nat, codec: Codec): Option<string>
    requires k < |lines| && IsRecord(lines[k], codec)
  {
    StoredHmac(RecordOf(lines[k], codec))
  }

  lemma SameLookup(a: seq<Member>, b: seq<Member>, key: string)
    requires DistinctKeys(a) && DistinctKeys(b) && Same(Obj(a), Obj(b))
    requires Lookup(a, key).Some?
    ensures Lookup(b, key).Some? && Same(Lookup(a, key).value, Lookup(b, key).value)
  {
    LookupFinds(a, key);
    var i :| 0 <= i < |a| && a[i] == Member(key, Lookup(a, key).value);
    assert HasSame(a[i], b);
    var j :| 0 <= j < |b| && a[i].key == b[j].key && Same(a[i].value, b[j].value);
    LookupIs(b, b[j]);
  }

  lemma {:induction false} WithoutLookup(ms: seq<Member>, key: string)
    requires key != "hmac"
    ensures Lookup(Without(ms, "hmac"), key) == Lookup(ms, key)
  {
    if ms != [] {
      WithoutLookup(ms[1..], key);
      if ms[0].key != "hmac" {
        assert Without(ms, "hmac")[1..] == Without(ms[1..], "hmac");
      }
    }
  }

  lemma {:induction false} WithoutSize(ms: seq<Member>)
    requires DistinctKeys(ms)
    ensures |Without(ms, "hmac")| == |ms| - if Lookup(ms, "hmac").Some? then 1 else 0
  {
    if ms != [] {
      WithoutSize(ms[1..]);
      if ms[0].key == "hmac" {
        LookupFinds(ms[1..], "hmac");
      }
    }
  }

  /** Two authentic records with one hmac are the same record. */
  lemma SameHmacSameRecord(a: seq<Member>, b: seq<Member>, codec: Codec)
    requires SoundMac(codec.mac)
    requires WellFormed(Obj(a)) && WellFormed(Obj(b))
    requires Authentic(a, codec) && Authentic(b, codec) && StoredHmac(a) == StoredHmac(b)
    ensures Same(Shadow(a), Shadow(b)) && Same(Obj(a), Obj(b))
  {
    ShadowWellFormed(a);
    ShadowWellFormed(b);
    CanonicalFails(Shadow(a));
    CanonicalFails(Shadow(b));
    CanonicalInjective(Shadow(a), Shadow(b));
    SameShadowSameRecord(a, b);
  }

  lemma SameShadowSameRecord(a: seq<Member>, b: seq<Member>)
    requires WellFormed(Obj(a)) && WellFormed(Obj(b)) && Same(Shadow(a), Shadow(b))
    requires StoredHmac(a).Some? && StoredHmac(a) == StoredHmac(b)
    ensures Same(Obj(a), Obj(b))
  {
    WithoutSize(a);
    WithoutSize(b);
    forall i | 0 <= i < |a| ensures HasSame(a[i], b) {
      MemberInBoth(a, b, i);
    }
  }

  lemma MemberInBoth(a: seq<Member>, b: seq<Member>, i: nat)
    requires DistinctKeys(a) && DistinctKeys(b) && Same(Shadow(a), Shadow(b)) && i < |a|
    requires StoredHmac(a).Some? && StoredHmac(a) == StoredHmac(b)
    ensures HasSame(a[i], b)
  {
    if a[i].key == "hmac" {
      LookupIs(a, a[i]);
      LookupFinds(b, "hmac");
      var j :| 0 <= j < |b| && b[j] == Member("hmac", Lookup(b, "hmac").value);
    } else {
      WithoutKeeps(a, "hmac");
      WithoutKeeps(b, "hmac");
      assert a[i] in Without(a, "hmac");
      var p :| 0 <= p < |Without(a, "hmac")| && Without(a, "hmac")[p] == a[i];
      assert HasSame(Without(a, "hmac")[p], Without(b, "hmac"));
      var q :| 0 <= q < |Without(b, "hmac")| && a[i].key == Without(b, "hmac")[q].key
        && Same(a[i].value, Without(b, "hmac")[q].value);
      assert Without(b, "hmac")[q] in b;
    }
  }

  lemma ShadowWellFormed(ms: seq<Member>)
    requires WellFormed(Obj(ms))
    ensures WellFormed(Shadow(ms))
  {
    WithoutKeeps(ms, "hmac");
    forall i | 0 <= i < |Without(ms, "hmac")| ensures WellFormed(Without(ms, "hmac")[i].value) {
      assert Without(ms, "hmac")[i] in ms;
    }
  }

  /** Two chained records with one hmac are the same record, at the same
      place, after records with one hmac. */
  lemma SharedLink(a: seq<string>, i: nat, b: seq<string>, j: nat, codec: Codec)
    requires SoundMac(codec.mac) && SoundLoads(codec.loads) && i < |a| && j < |b|
    requires LinkAt(a, i, None, 1, codec) && LinkAt(b, j, None, 1, codec)
    requires HmacAt(a, i, codec) == HmacAt(b, j, codec)
    ensures i == j && Same(codec.loads(a[i]).value, codec.loads(b[j]).value)
    ensures i > 0 ==> IsRecord(a[i - 1], codec) && IsRecord(b[j - 1], codec)
    ensures i > 0 ==> HmacAt(a, i - 1, codec) == HmacAt(b, j - 1, codec)
  {
    var ra, rb := RecordOf(a[i], codec), RecordOf(b[j], codec);
    assert codec.loads(a[i]).value == Obj(ra) && codec.loads(b[j]).value == Obj(rb);
    SameHmacSameRecord(ra, rb, codec);
    SameLookup(ra, rb, "seq");
    if i > 0 {
      SameLookup(ra, rb, "prev_hmac");
    }
  }

  /** In two chains, equal hmacs stand at the same place and everything up to
      there is the same. */
  lemma {:induction false} SharedPrefix(
      a: seq<string>, i: nat, b: seq<string>, j: nat, codec: Codec)
    requires SoundMac(codec.mac) && SoundLoads(codec.loads)
    requires IsChain(a, None, 1, codec) && IsChain(b, None, 1, codec)
    requires i < |a| && j < |b|
    requires IsRecord(a[i], codec) && IsRecord(b[j], codec)
    requires HmacAt(a, i, codec) == HmacAt(b, j, codec)
    ensures i == j
    ensures forall k | 0 <= k <= i :: SameLine(a[k], b[k], codec)
    decreases i
  {
    hide LinkAt;
    assert LinkAt(a, i, None, 1, codec) && LinkAt(b, j, None, 1, codec);
    SharedLink(a, i, b, j, codec);
    if i > 0 {
      SharedPrefix(a, i - 1, b, j - 1, codec);
    }
  }

  ghost predicate SameLine(x: string, y: string, codec: Codec) {
    && codec.loads(x).Some?
    && codec.loads(y).Some?
    && Same(codec.loads(x).value, codec.loads(y).value)
  }

  ghost predicate SameLastHmac(a: seq<string>, b: seq<string>, codec: Codec) {
    && a != [] && b != []
    && IsRecord(a[|a| - 1], codec)
    && IsRecord(b[|b| - 1], codec)
    && HmacAt(a, |a| - 1, codec) == HmacAt(b, |b| - 1, codec)
  }

  /** Two clean files whose last records carry one hmac hold the same records,
      all of them. */
  lemma LastHmacFixesFile(d: string, e: string, codec: Codec)
    requires SoundMac(codec.mac) && SoundLoads(codec.loads)
    requires CleanFile(d, codec) && CleanFile(e, codec)
    requires SameLastHmac(RecordLines(d), RecordLines(e), codec)
    ensures |RecordLines(d)| == |RecordLines(e)|
    ensures forall k | 0 <= k < |RecordLines(d)| ::
              SameLine(RecordLines(d)[k], RecordLines(e)[k], codec)
  {
    var a, b := RecordLines(d), RecordLines(e);
    SharedPrefix(a, |a| - 1, b, |b| - 1, codec);
  }
}
