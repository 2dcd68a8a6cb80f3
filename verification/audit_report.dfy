/** What the verifier reports, said line by line. */
module AuditReports {
  import opened Wrappers
  import opened JsonValues
  import opened Canonical
  import opened AuditVerify
  import opened AuditLog
  import opened Texts

  /** Reading cannot go on past this line. */
  ghost predicate Stops(line: string, codec: Codec) {
    || !IsRecord(line, codec)
    || SeqNumber(Lookup(RecordOf(line, codec), "seq")).None?
    || StoredHmac(RecordOf(line, codec)).None?
    || Canonicalize(Shadow(RecordOf(line, codec))).None?
  }

  /** The number a record states. */
  ghost function NumberOf(line: string, codec: Codec): Option<int> {
    if IsRecord(line, codec) then SeqNumber(Lookup(RecordOf(line, codec), "seq")) else None
  }

  /** One more than the number of the line before, or `start` for the first. */
  ghost function Due(lines: seq<string>, k: nat, start: int, codec: Codec): Option<int>
    requires k < |lines|
  {
    if k == 0 then Some(start)
    else if NumberOf(lines[k - 1], codec).None? then None
    else Some(NumberOf(lines[k - 1], codec).value + 1)
  }

  /** The hmac of the line before, or `prev` for the first. */
  ghost function HmacBefore(lines: seq<string>, k: nat, prev: Option<string>, codec: Codec): Option<string>
    requires k < |lines|
  {
    if k == 0 then prev
    else if IsRecord(lines[k - 1], codec) then StoredHmac(RecordOf(lines[k - 1], codec))
    else None
  }

  /** The record's prev_hmac is another than `hmac`: null or absent for none. */
  ghost predicate Unlinked(line: string, hmac: Option<string>, codec: Codec)
    requires IsRecord(line, codec)
  {
    var stored := Lookup(RecordOf(line, codec), "prev_hmac");
    if hmac.Some? then stored != Some(Str(hmac.value)) else stored.Some? && !stored.value.Null?
  }

  /** What is wrong with line k, one kind at a time. */
  ghost predicate Faulty(v: Violation, lines: seq<string>, k: nat, prev: Option<string>, start: int, codec: Codec)
    requires k < |lines|
  {
    var line := lines[k];
    if !IsRecord(line, codec) then v == Violation(ParseError, None)
    else if NumberOf(line, codec).None? then v == Violation(MissingField, None)
    else
      && v.number == NumberOf(line, codec)
      && match v.kind
         case SequenceGap => v.number != Due(lines, k, start, codec)
         case ChainBreak => Unlinked(line, HmacBefore(lines, k, prev, codec), codec)
         case MissingField => StoredHmac(RecordOf(line, codec)).None?
         case ParseError =>
           StoredHmac(RecordOf(line, codec)).Some? && Canonicalize(Shadow(RecordOf(line, codec))).None?
         case HmacMismatch =>
           && StoredHmac(RecordOf(line, codec)).Some? && Canonicalize(Shadow(RecordOf(line, codec))).Some?
           && !Authentic(RecordOf(line, codec), codec)
         case Truncated => false
  }

  function Rank(kind: Kind): nat {
    match kind
    case SequenceGap => 0
    case ChainBreak => 1
    case _ => 2
  }

  /** Exactly what is wrong with line k, each once: the gap, the break, and last
      what is wrong with the record itself. */
  ghost predicate LineReport(found: seq<Violation>, lines: seq<string>, k: nat, prev: Option<string>, start: int,
                             codec: Codec)
    requires k < |lines|
  {
    && (forall v :: v in found <==> Faulty(v, lines, k, prev, start, codec))
    && (forall i, j | 0 <= i < j < |found| :: Rank(found[i].kind) < Rank(found[j].kind))
  }

  /** One report for each line, up to the first that stops the reading. */
  ghost predicate LineReports(parts: seq<seq<Violation>>, lines: seq<string>, prev: Option<string>, start: int, codec: Codec) {
    && |parts| <= |lines|
    && (forall k | 0 <= k < |parts| :: LineReport(parts[k], lines, k, prev, start, codec))
    && (forall k | 0 <= k < |parts| - 1 :: !Stops(lines[k], codec))
    && (|parts| < |lines| ==> parts != [] && Stops(lines[|parts| - 1], codec))
  }

  function Joined(parts: seq<seq<Violation>>): seq<Violation> {
    if parts == [] then [] else parts[0] + Joined(parts[1..])
  }

  /** At most one finding of each rank, in their order. */
  function Findings(gap: bool, broken: bool, last: Option<Kind>, number: Option<int>): seq<Violation> {
    (if gap then [Violation(SequenceGap, number)] else [])
    + (if broken then [Violation(ChainBreak, number)] else [])
    + (if last.Some? then [Violation(last.value, number)] else [])
  }

  lemma FindingsListed(gap: bool, broken: bool, last: Option<Kind>, number: Option<int>)
    requires last.Some? ==> Rank(last.value) == 2
    ensures var found := Findings(gap, broken, last, number);
            && (forall v :: v in found <==>
                  && v.number == number
                  && ((gap && v.kind.SequenceGap?) || (broken && v.kind.ChainBreak?) || Some(v.kind) == last))
            && (forall i, j | 0 <= i < j < |found| :: Rank(found[i].kind) < Rank(found[j].kind))
  {
  }

  ghost function LastKind(ms: seq<Member>, codec: Codec): Option<Kind> {
    if StoredHmac(ms).None? then Some(MissingField)
    else if Canonicalize(Shadow(ms)).None? then Some(ParseError)
    else if !Authentic(ms, codec) then Some(HmacMismatch)
    else None
  }

  lemma RecordReports(lines: seq<string>, prev: Option<string>, start: int, codec: Codec)
    requires lines != [] && IsRecord(lines[0], codec) && NumberOf(lines[0], codec).Some?
    ensures var ms := RecordOf(lines[0], codec);
            LineReport(Findings(NumberOf(lines[0], codec) != Some(start), Unlinked(lines[0], prev, codec), LastKind(ms, codec),
                                NumberOf(lines[0], codec)), lines, 0, prev, start, codec)
  {
    hide Canonicalize, Lookup, SeqNumber, StoredHmac, Authentic, Shadow, Unlinked, Findings;
    FindingsListed(NumberOf(lines[0], codec) != Some(start), Unlinked(lines[0], prev, codec),
                   LastKind(RecordOf(lines[0], codec), codec), NumberOf(lines[0], codec));
  }

  lemma JudgeFinds(ms: seq<Member>, prev: Option<string>, start: int, codec: Codec)
    requires SeqNumber(Lookup(ms, "seq")).Some?
    ensures JudgeRecord(ms, prev, start, codec).found ==
            Findings(SeqNumber(Lookup(ms, "seq")) != Some(start), !LinksTo(Lookup(ms, "prev_hmac"), prev),
                     LastKind(ms, codec), SeqNumber(Lookup(ms, "seq")))
  {
    hide Canonicalize, Lookup, SeqNumber, StoredHmac, Authentic, Shadow, LinksTo;
  }

  lemma JudgeReports(lines: seq<string>, prev: Option<string>, start: int, codec: Codec)
    requires lines != []
    ensures var v := Judge(lines[0], prev, start, codec);
            && LineReport(v.found, lines, 0, prev, start, codec)
            && (v.Stop? <==> Stops(lines[0], codec))
            && (v.Continue? ==>
                  Some(v.hmac) == StoredHmac(RecordOf(lines[0], codec)) && Some(v.number) == NumberOf(lines[0], codec))
  {
    hide Canonicalize, Lookup, SeqNumber, StoredHmac, Authentic, Shadow, Findings, LastKind;
    if IsRecord(lines[0], codec) && NumberOf(lines[0], codec).Some? {
      RecordReports(lines, prev, start, codec);
      JudgeFinds(RecordOf(lines[0], codec), prev, start, codec);
    }
  }

  /** Line k of the rest is line k + 1. */
  lemma ShiftReport(found: seq<Violation>, lines: seq<string>, k: nat, prev: Option<string>, start: int, codec: Codec)
    requires 0 < k < |lines| && !Stops(lines[0], codec)
    requires LineReport(found, lines[1..], k - 1, StoredHmac(RecordOf(lines[0], codec)),
                        NumberOf(lines[0], codec).value + 1, codec)
    ensures LineReport(found, lines, k, prev, start, codec)
  {
    hide Canonicalize, Lookup, SeqNumber, StoredHmac, Authentic;
    var hmac, next := StoredHmac(RecordOf(lines[0], codec)), NumberOf(lines[0], codec).value + 1;
    assert lines[1..][k - 1] == lines[k];
    if k > 1 {
      assert lines[1..][k - 2] == lines[k - 1];
    }
    assert Due(lines[1..], k - 1, next, codec) == Due(lines, k, start, codec);
    assert HmacBefore(lines[1..], k - 1, hmac, codec) == HmacBefore(lines, k, prev, codec);
    assert forall v :: Faulty(v, lines[1..], k - 1, hmac, next, codec) == Faulty(v, lines, k, prev, start, codec);
  }

  /** The report is that of the lines, one after another: each line's gap is told
      against the number of the line before it, each break against its hmac. */
  lemma {:induction false} ReportIsExact(lines: seq<string>, prev: Option<string>, start: int, codec: Codec)
    returns (parts: seq<seq<Violation>>)
    ensures LineReports(parts, lines, prev, start, codec)
    ensures Report(lines, prev, start, codec) == Joined(parts)
  {
    hide Judge, Stops, LineReport, NumberOf;
    parts := [];
    if lines != [] {
      JudgeReports(lines, prev, start, codec);
      var v := Judge(lines[0], prev, start, codec);
      if v.Stop? {
        parts := [v.found];
        assert parts[1..] == [];
      } else {
        var rest := ReportIsExact(lines[1..], Some(v.hmac), v.number + 1, codec);
        parts := [v.found] + rest;
        assert parts[1..] == rest;
        forall k | 0 < k < |parts| ensures LineReport(parts[k], lines, k, prev, start, codec) {
          assert parts[k] == rest[k - 1];
          ShiftReport(parts[k], lines, k, prev, start, codec);
        }
        forall k | 0 <= k < |parts| - 1 ensures !Stops(lines[k], codec) {
          if k > 0 {
            assert lines[k] == lines[1..][k - 1];
          }
        }
        if |parts| < |lines| {
          assert lines[1..][|rest| - 1] == lines[|parts| - 1];
        }
      }
    }
  }

  /** What verify() reports of a file: that it is cut short, if it is, and then
      what is wrong with its lines. */
  lemma FileReportIsExact(data: string, codec: Codec) returns (parts: seq<seq<Violation>>)
    ensures LineReports(parts, RecordLines(data), None, 1, codec)
    ensures FileReport(data, codec) ==
            (if data == [] || data[|data| - 1] == '\n' then [] else [Violation(Truncated, None)]) + Joined(parts)
  {
    parts := ReportIsExact(RecordLines(data), None, 1, codec);
    assert data == [] ==> RecordLines(data) == [] && Joined(parts) == [];
  }

  // ---- a record taken out ----

  /** The hmac the line after these has to name. */
  ghost function LastHmac(lines: seq<string>, prev: Option<string>, codec: Codec): Option<string> {
    if lines == [] then prev
    else if IsRecord(lines[|lines| - 1], codec) then StoredHmac(RecordOf(lines[|lines| - 1], codec))
    else None
  }

  /** A chain adds nothing to the report, whatever follows it. */
  lemma {:induction false} ReportAfterChain(a: seq<string>, b: seq<string>, prev: Option<string>, start: int, codec: Codec)
    requires IsChain(a, prev, start, codec)
    ensures Report(a + b, prev, start, codec) == Report(b, LastHmac(a, prev, codec), start + |a|, codec)
  {
    hide Judge, LinkAt;
    if a == [] {
      assert a + b == b;
    } else {
      assert (a + b)[0] == a[0] && (a + b)[1..] == a[1..] + b;
      assert LinkAt(a, 0, prev, start, codec);
      JudgeIsLink(a, prev, start, codec);
      ChainHeadTail(a, prev, start, codec);
      ReportAfterChain(a[1..], b, StoredHmac(RecordOf(a[0], codec)), start + 1, codec);
      LastOfRest(a, prev, codec);
    }
  }

  lemma LastOfRest(a: seq<string>, prev: Option<string>, codec: Codec)
    requires a != [] && IsRecord(a[0], codec)
    ensures LastHmac(a, prev, codec) == LastHmac(a[1..], StoredHmac(RecordOf(a[0], codec)), codec)
  {
  }

  lemma {:induction false} ChainSuffix(lines: seq<string>, k: nat, prev: Option<string>, start: int, codec: Codec)
    requires IsChain(lines, prev, start, codec) && k <= |lines|
    ensures IsChain(lines[k..], LastHmac(lines[..k], prev, codec), start + k, codec)
  {
    if k > 0 {
      assert LinkAt(lines, 0, prev, start, codec);
      ChainHeadTail(lines, prev, start, codec);
      ChainSuffix(lines[1..], k - 1, StoredHmac(RecordOf(lines[0], codec)), start + 1, codec);
      assert lines[1..][k - 1..] == lines[k..] && lines[1..][..k - 1] == lines[..k][1..];
      LastOfRest(lines[..k], prev, codec);
    } else {
      assert lines[0..] == lines;
    }
  }

  lemma ChainPrefix(lines: seq<string>, k: nat, prev: Option<string>, start: int, codec: Codec)
    requires IsChain(lines, prev, start, codec) && k <= |lines|
    ensures IsChain(lines[..k], prev, start, codec)
  {
    forall i | 0 <= i < k ensures LinkAt(lines[..k], i, prev, start, codec) {
      assert LinkAt(lines, i, prev, start, codec);
    }
  }

  /** The record that follows one taken out names an hmac the reading has not
      just seen. */
  lemma NotLinked(lines: seq<string>, k: nat, codec: Codec)
    requires SoundMac(codec.mac) && SoundLoads(codec.loads)
    requires IsChain(lines, None, 1, codec) && k + 1 < |lines|
    ensures IsRecord(lines[k + 1], codec)
    ensures !LinksTo(Lookup(RecordOf(lines[k + 1], codec), "prev_hmac"), LastHmac(lines[..k], None, codec))
  {
    hide Authentic;
    assert LinkAt(lines, k, None, 1, codec) && LinkAt(lines, k + 1, None, 1, codec);
    if k > 0 {
      assert LinkAt(lines, k - 1, None, 1, codec);
      if HmacAt(lines, k, codec) == HmacAt(lines, k - 1, codec) {
        SharedPrefix(lines, k, lines, k - 1, codec);
      }
    }
  }

  /** A record taken out of a chain, other than the last, is told once, at the
      record after it, and nothing else is. */
  lemma DeletionIsTold(lines: seq<string>, k: nat, codec: Codec)
    requires SoundMac(codec.mac) && SoundLoads(codec.loads)
    requires IsChain(lines, None, 1, codec) && k + 1 < |lines|
    ensures Report(lines[..k] + lines[k + 1..], None, 1, codec) ==
            [Violation(SequenceGap, Some(k + 2)), Violation(ChainBreak, Some(k + 2))]
  {
    hide LinkAt, Judge;
    var before, after := lines[..k], lines[k + 1..];
    ChainPrefix(lines, k, None, 1, codec);
    ReportAfterChain(before, after, None, 1, codec);
    JudgeAfterDeleted(lines, k, codec);
    assert after[0] == lines[k + 1] && after[1..] == lines[k + 2..];
    ChainSuffix(lines, k + 2, None, 1, codec);
    assert lines[..k + 2][k + 1] == lines[k + 1];
    EmptyReportIsChain(lines[k + 2..], LastHmac(lines[..k + 2], None, codec), k + 3, codec);
  }

  lemma JudgeAfterDeleted(lines: seq<string>, k: nat, codec: Codec)
    requires SoundMac(codec.mac) && SoundLoads(codec.loads)
    requires IsChain(lines, None, 1, codec) && k + 1 < |lines|
    ensures IsRecord(lines[k + 1], codec) && StoredHmac(RecordOf(lines[k + 1], codec)).Some?
    ensures Judge(lines[k + 1], LastHmac(lines[..k], None, codec), k + 1, codec) ==
            Continue([Violation(SequenceGap, Some(k + 2)), Violation(ChainBreak, Some(k + 2))],
                     StoredHmac(RecordOf(lines[k + 1], codec)).value, k + 2)
  {
    NotLinked(lines, k, codec);
    hide LinksTo, Lookup, SeqNumber;
    assert LinkAt(lines, k + 1, None, 1, codec);
  }

  // ---- what the tail reader makes of any file ----

  /** The record's number and hmac, where it has such. */
  ghost predicate TailIs(line: string, tail: Option<Tail>, codec: Codec) {
    if !IsRecord(line, codec) then tail.None?
    else
      var number, hmac := Lookup(RecordOf(line, codec), "seq"), Lookup(RecordOf(line, codec), "hmac");
      && (tail.Some? <==>
            && (number.None? || number.value.Int? || number.value.Bool?)
            && (hmac.None? || hmac.value.Null? || hmac.value.Str?))
      && (tail.Some? ==>
            && tail.value.number == (match number
                                     case Some(Int(n)) => n + 1
                                     case Some(Bool(b)) => if b then 2 else 1
                                     case _ => 1)
            && tail.value.prev == (match hmac case Some(Str(h)) => Some(h) case _ => None))
  }

  ghost predicate NothingAfter(lines: seq<string>, k: int) {
    forall j: nat | k < j < |lines| :: IsBlank(lines[j])
  }

  lemma {:induction false} LastFilledIs(lines: seq<string>, k: nat)
    requires k < |lines| && !IsBlank(lines[k]) && NothingAfter(lines, k)
    ensures LastFilled(lines) == Some(lines[k])
  {
    if k < |lines| - 1 {
      LastFilledIs(lines[..|lines| - 1], k);
    }
  }

  lemma {:induction false} NoneFilled(lines: seq<string>)
    requires NothingAfter(lines, -1)
    ensures LastFilled(lines).None?
  {
    if lines != [] {
      NoneFilled(lines[..|lines| - 1]);
    }
  }

  lemma TailOfRecordIs(ms: seq<Member>)
    ensures var tail, number, hmac := TailOfRecord(ms), Lookup(ms, "seq"), Lookup(ms, "hmac");
            && (tail.Some? <==>
                  && (number.None? || number.value.Int? || number.value.Bool?)
                  && (hmac.None? || hmac.value.Null? || hmac.value.Str?))
            && (tail.Some? ==>
                  && tail.value.number == (match number
                                           case Some(Int(n)) => n + 1
                                           case Some(Bool(b)) => if b then 2 else 1
                                           case _ => 1)
                  && tail.value.prev == (match hmac case Some(Str(h)) => Some(h) case _ => None))
  {
    hide Lookup;
  }

  lemma LoadsTail(data: string, line: string, codec: Codec)
    requires LastFilled(LfLines(data, [])) == Some(line)
    ensures TailIs(line, LoadTail(data, codec), codec)
  {
    hide LfLines, IsBlank, LastFilled, Lookup, TailOfRecord;
    if IsRecord(line, codec) {
      TailOfRecordIs(RecordOf(line, codec));
    }
  }

  lemma LoadsNone(data: string, codec: Codec)
    requires LastFilled(LfLines(data, [])).None?
    ensures LoadTail(data, codec) == Some(Tail(1, None))
  {
    hide LfLines, IsBlank, LastFilled, Lookup;
  }

  /** The tail reader takes a file without a filled line for a new one, and
      otherwise reads the last filled line, whatever stands before it. */
  lemma TailIsLastFilled(data: string, k: nat, codec: Codec)
    ensures var lines := LfLines(data, []);
            && (NothingAfter(lines, -1) ==> LoadTail(data, codec) == Some(Tail(1, None)))
            && (k < |lines| && !IsBlank(lines[k]) && NothingAfter(lines, k) ==> TailIs(lines[k], LoadTail(data, codec), codec))
  {
    hide LfLines, IsBlank, LastFilled, LoadTail, TailIs, NothingAfter;
    var lines := LfLines(data, []);
    if NothingAfter(lines, -1) {
      NoneFilled(lines);
      LoadsNone(data, codec);
    }
    if k < |lines| && !IsBlank(lines[k]) && NothingAfter(lines, k) {
      LastFilledIs(lines, k);
      LoadsTail(data, lines[k], codec);
    }
  }
}
