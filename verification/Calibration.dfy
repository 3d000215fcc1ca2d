/** Known violations injected into a good transcript, to see that the oracle notices. */
module Calibration {
  import opened Transcript

  /** The names "corrupt", "omit", "duplicate", "reorder", and any other text. */
  datatype Violation = Corrupt | Omit | Duplicate | Reorder | Unknown(name: string)

  datatype Error = UnknownViolation | TooFewRecords | Escaped(violation: Violation)

  datatype Result<+T> = Returned(value: T) | Raised(error: Error)

  /** The entries of a calibration: the untouched transcript and each violation. */
  datatype Case = KnownGood | Injected(violation: Violation)

  const INJECTIONS: seq<Violation> := [Corrupt, Omit, Duplicate, Reorder]

  /** Sixty-four zero digits. */
  const ZERO_DIGEST: string := Repeated('0', 64)

  /** A character multiplied by a number. */
  function Repeated(c: char, n: nat): (s: string)
    ensures |s| == n && forall x <- s :: x == c
  {
    seq(n, i => c)
  }

  /** The transcript after a violation. */
  function Violated(records: seq<MessageRecord>, violation: Violation): seq<MessageRecord>
    requires |records| >= 2
  {
    match violation
    case Corrupt => records[0 := records[0].(sha256 := ZERO_DIGEST)]
    case Omit => records[..|records| - 1]
    case Duplicate => records + [records[|records| - 1]]
    case Reorder => [records[1], records[0]] + records[2..]
    case Unknown(_) => records
  }

  /** A zeroed first digest, a missing last record, the last record twice, the first two
      records exchanged; everything else stays where it was. */
  lemma ViolatedExactly(records: seq<MessageRecord>)
    requires |records| >= 2
    ensures Violated(records, Corrupt) == [records[0].(sha256 := ZERO_DIGEST)] + records[1..]
    ensures Violated(records, Omit) + [records[|records| - 1]] == records
    ensures Violated(records, Duplicate) == records + [records[|records| - 1]]
    ensures Violated(records, Reorder) == [records[1], records[0]] + records[2..]
  {
    UpdateFirst(records, records[0].(sha256 := ZERO_DIGEST));
    Unlast(records);
  }

  lemma UpdateFirst(records: seq<MessageRecord>, r: MessageRecord)
    requires records != []
    ensures records[0 := r] == [r] + records[1..]
  {
  }

  lemma Unlast(records: seq<MessageRecord>)
    requires records != []
    ensures records[..|records| - 1] + [records[|records| - 1]] == records
  {
  }

  lemma ZeroDigest()
    ensures |ZERO_DIGEST| == 64 && forall c <- ZERO_DIGEST :: c == '0'
  {
  }

  method Inject(records: seq<MessageRecord>, violation: Violation) returns (r: Result<seq<MessageRecord>>)
    ensures violation.Unknown? ==> r == Raised(UnknownViolation)
    ensures !violation.Unknown? && |records| < 2 ==> r == Raised(TooFewRecords)
    ensures !violation.Unknown? && |records| >= 2 ==> r == Returned(Violated(records, violation))
  {
    if violation.Unknown? {
      return Raised(UnknownViolation);
    }
    if |records| < 2 {
      return Raised(TooFewRecords);
    }
    var result := records;
    match violation {
      case Corrupt => result := result[0 := result[0].(sha256 := ZERO_DIGEST)];
      case Omit => result := result[..|result| - 1];
      case Duplicate => result := result + [result[|result| - 1]];
      case Reorder => result := result[0 := result[1]][1 := result[0]];
    }
    assert result == Violated(records, violation);
    r := Returned(result);
  }

  /** Whether the ordered comparison lets an injected violation through. */
  predicate Escapes(records: seq<MessageRecord>, violation: Violation)
    requires |records| >= 2
  {
    OrderedFailures(records, Violated(records, violation)) == []
  }

  /** Exactly two violations can go unnoticed: a digest that is already all zeros, and a
      swap of equal records. */
  lemma EscapesExactlyWhen(records: seq<MessageRecord>)
    requires |records| >= 2
    ensures Escapes(records, Corrupt) <==> records[0].sha256 == ZERO_DIGEST
    ensures !Escapes(records, Omit) && !Escapes(records, Duplicate)
    ensures Escapes(records, Reorder) <==> records[0] == records[1]
  {
    forall violation <- INJECTIONS {
      OrderedPassIffEqual(records, Violated(records, violation));
    }
    assert Violated(records, Corrupt)[0] == records[0].(sha256 := ZERO_DIGEST);
    assert Violated(records, Reorder)[0] == records[1];
    if records[0] == records[1] {
      assert Violated(records, Reorder) == records;
    }
  }

  /** When a violation is noticed, these are all the failures it causes. */
  lemma {:induction false} FailuresOfViolation(records: seq<MessageRecord>)
    requires |records| >= 2 && records[0].sha256 != ZERO_DIGEST && records[0] != records[1]
    ensures OrderedFailures(records, Violated(records, Corrupt))
            == [RecordDiffers(0, records[0], records[0].(sha256 := ZERO_DIGEST))]
    ensures OrderedFailures(records, Violated(records, Omit)) == [LengthDiffers(|records|, |records| - 1)]
    ensures OrderedFailures(records, Violated(records, Duplicate)) == [LengthDiffers(|records|, |records| + 1)]
    ensures OrderedFailures(records, Violated(records, Reorder))
            == [RecordDiffers(0, records[0], records[1]), RecordDiffers(1, records[1], records[0])]
  {
    FailuresOfCorruption(records);
    OnlyTheseDiffer(records, Violated(records, Omit), 0, |records| - 1);
    OnlyTheseDiffer(records, Violated(records, Duplicate), 0, |records|);
    FailuresOfReordering(records);
  }

  lemma FailuresOfCorruption(records: seq<MessageRecord>)
    requires |records| >= 2 && records[0].sha256 != ZERO_DIGEST
    ensures OrderedFailures(records, Violated(records, Corrupt))
            == [RecordDiffers(0, records[0], records[0].(sha256 := ZERO_DIGEST))]
  {
    OnlyTheseDiffer(records, Violated(records, Corrupt), 1, |records|);
    FirstDifference(records, Violated(records, Corrupt));
  }

  lemma FailuresOfReordering(records: seq<MessageRecord>)
    requires |records| >= 2 && records[0] != records[1]
    ensures OrderedFailures(records, Violated(records, Reorder))
            == [RecordDiffers(0, records[0], records[1]), RecordDiffers(1, records[1], records[0])]
  {
    OnlyTheseDiffer(records, Violated(records, Reorder), 2, |records|);
    FirstDifference(records, Violated(records, Reorder));
  }

  /** From position `k` on the lists agree, so only earlier positions are reported. */
  lemma {:induction false} OnlyTheseDiffer(sent: seq<MessageRecord>, received: seq<MessageRecord>, k: nat, n: nat)
    requires k <= n <= |sent| && n <= |received| && forall i | k <= i < n :: sent[i] == received[i]
    ensures Differences(sent, received, n) == Differences(sent, received, k)
  {
    if k < n {
      OnlyTheseDiffer(sent, received, k, n - 1);
    }
  }

  lemma FirstDifference(sent: seq<MessageRecord>, received: seq<MessageRecord>)
    requires |sent| >= 2 && |received| >= 2 && sent[0] != received[0]
    ensures Differences(sent, received, 1) == [RecordDiffers(0, sent[0], received[0])]
    ensures sent[1] != received[1] ==>
              Differences(sent, received, 2) == [RecordDiffers(0, sent[0], received[0]), RecordDiffers(1, sent[1], received[1])]
  {
    assert Differences(sent, received, 0) == [];
  }

  function InjectedResult(records: seq<MessageRecord>, violation: Violation): OracleResult
    requires |records| >= 2
  {
    Judge(OrderedFailures(records, Violated(records, violation)))
  }

  /** The dictionary after the first `k` violations. */
  function AfterCases(records: seq<MessageRecord>, k: nat): map<Case, OracleResult>
    requires k <= |INJECTIONS| && (k > 0 ==> |records| >= 2)
  {
    if k == 0 then map[KnownGood := OracleResult(PASS, [])]
    else AfterCases(records, k - 1)[Injected(INJECTIONS[k - 1]) := InjectedResult(records, INJECTIONS[k - 1])]
  }

  /** What a calibration comes to, said by the transcript alone: it returns unless there are
      too few records or one of the two violations that can go unnoticed does. */
  function Outcome(records: seq<MessageRecord>): Result<map<Case, OracleResult>> {
    if |records| < 2 then Raised(TooFewRecords)
    else if records[0].sha256 == ZERO_DIGEST then Raised(Escaped(Corrupt))
    else if records[0] == records[1] then Raised(Escaped(Reorder))
    else Returned(AfterCases(records, |INJECTIONS|))
  }

  lemma NextCase(records: seq<MessageRecord>, k: nat)
    requires |records| >= 2 && k < |INJECTIONS|
    ensures AfterCases(records, k + 1) == AfterCases(records, k)[Injected(INJECTIONS[k]) := InjectedResult(records, INJECTIONS[k])]
  {
  }

  ghost predicate NoticedBefore(records: seq<MessageRecord>, k: nat)
    requires |records| >= 2 && k <= |INJECTIONS|
  {
    forall j | 0 <= j < k :: !Escapes(records, INJECTIONS[j])
  }

  lemma FirstEscape(records: seq<MessageRecord>, k: nat)
    requires |records| >= 2 && k < |INJECTIONS| && NoticedBefore(records, k) && Escapes(records, INJECTIONS[k])
    ensures Outcome(records) == Raised(Escaped(INJECTIONS[k]))
  {
    EscapesExactlyWhen(records);
    assert INJECTIONS[0] == Corrupt && INJECTIONS[1] == Omit && INJECTIONS[2] == Duplicate;
  }

  lemma NothingEscapes(records: seq<MessageRecord>)
    requires |records| >= 2 && NoticedBefore(records, |INJECTIONS|)
    ensures Outcome(records) == Returned(AfterCases(records, |INJECTIONS|))
  {
    EscapesExactlyWhen(records);
    assert INJECTIONS[0] == Corrupt && INJECTIONS[3] == Reorder;
  }

  method Calibrate(records: seq<MessageRecord>) returns (r: Result<map<Case, OracleResult>>)
    ensures r == Outcome(records)
  {
    var good := CompareOrdered(records, records);
    OrderedPassIffEqual(records, records);
    var results := map[KnownGood := good];
    for k := 0 to |INJECTIONS|
      invariant k > 0 ==> |records| >= 2 && NoticedBefore(records, k)
      invariant results == AfterCases(records, k)
    {
      var violation := INJECTIONS[k];
      var result := Try(records, violation);
      if result.Raised? {
        if |records| >= 2 {
          FirstEscape(records, k);
        }
        return Raised(result.error);
      }
      results := results[Injected(violation) := result.value];
      NextCase(records, k);
    }
    NothingEscapes(records);
    r := Returned(results);
  }

  /** One turn of the loop: inject, compare, and insist on a failure. */
  method Try(records: seq<MessageRecord>, violation: Violation) returns (r: Result<OracleResult>)
    requires !violation.Unknown?
    ensures if |records| < 2 then r == Raised(TooFewRecords)
            else if Escapes(records, violation) then r == Raised(Escaped(violation))
            else r == Returned(InjectedResult(records, violation))
  {
    var injected := Inject(records, violation);
    if injected.Raised? {
      return Raised(injected.error);
    }
    var result := CompareOrdered(records, injected.value);
    if result.verdict == PASS {
      return Raised(Escaped(violation));
    }
    r := Returned(result);
  }

  /** A report in which the untouched records pass and every violation is noticed. */
  ghost predicate Noticed(records: seq<MessageRecord>, report: map<Case, OracleResult>)
    requires |records| >= 2
  {
    report == map[
      KnownGood := OracleResult(PASS, []),
      Injected(Corrupt) := OracleResult(FAIL, [RecordDiffers(0, records[0], records[0].(sha256 := ZERO_DIGEST))]),
      Injected(Omit) := OracleResult(FAIL, [LengthDiffers(|records|, |records| - 1)]),
      Injected(Duplicate) := OracleResult(FAIL, [LengthDiffers(|records|, |records| + 1)]),
      Injected(Reorder) := OracleResult(FAIL,
        [RecordDiffers(0, records[0], records[1]), RecordDiffers(1, records[1], records[0])])]
  }

  /** What a calibration that returns reports: one failure each for a corrupted, an omitted
      and a duplicated record, and two for a swap. */
  lemma {:induction false} CalibrationReport(records: seq<MessageRecord>)
    requires |records| >= 2 && records[0].sha256 != ZERO_DIGEST && records[0] != records[1]
    ensures Outcome(records).Returned? && Noticed(records, Outcome(records).value)
  {
    FailuresOfViolation(records);
    var corrupted := AfterCases(records, 0)[Injected(Corrupt) := InjectedResult(records, Corrupt)];
    assert AfterCases(records, 1) == corrupted;
    var omitted := corrupted[Injected(Omit) := InjectedResult(records, Omit)];
    assert AfterCases(records, 2) == omitted;
    assert AfterCases(records, 3) == omitted[Injected(Duplicate) := InjectedResult(records, Duplicate)];
  }

  // ---------------------------------------------------------------- the unordered oracle

  lemma KeysOfUpdate(records: seq<MessageRecord>, changed: MessageRecord)
    requires records != []
    ensures multiset(Keys(records[0 := changed])) == multiset(Keys(records)) - multiset{KeyOf(records[0])} + multiset{KeyOf(changed)}
  {
    var keys := Keys(records);
    assert Keys(records[0 := changed]) == keys[0 := KeyOf(changed)];
  }

  lemma KeysOfSwap(records: seq<MessageRecord>)
    requires |records| >= 2
    ensures multiset(Keys(Violated(records, Reorder))) == multiset(Keys(records))
  {
    var a, b, rest := KeyOf(records[0]), KeyOf(records[1]), Keys(records[2..]);
    assert Keys(records) == [a, b] + rest;
    assert Keys(Violated(records, Reorder)) == [b, a] + rest;
  }

  /** The unordered comparison accepts reordering and, of the other violations, only a
      corruption that changes nothing. */
  lemma UnorderedAcceptsOnlyReorder(records: seq<MessageRecord>)
    requires |records| >= 2
    ensures CompareUnordered(records, Violated(records, Reorder)).verdict == PASS
    ensures CompareUnordered(records, Violated(records, Omit)).verdict == FAIL
    ensures CompareUnordered(records, Violated(records, Duplicate)).verdict == FAIL
    ensures CompareUnordered(records, Violated(records, Corrupt)).verdict == PASS <==> records[0].sha256 == ZERO_DIGEST
  {
    KeysOfSwap(records);
    SizesDiffer(records, Violated(records, Omit));
    SizesDiffer(records, Violated(records, Duplicate));
    var changed := records[0].(sha256 := ZERO_DIGEST);
    KeysOfUpdate(records, changed);
    var keys, k, k' := multiset(Keys(records)), KeyOf(records[0]), KeyOf(changed);
    assert Keys(records)[0] == k;
    assert (keys - multiset{k} + multiset{k'})[k'] == keys[k'] + (if k == k' then 0 else 1);
  }

  lemma SizesDiffer(sent: seq<MessageRecord>, received: seq<MessageRecord>)
    requires |sent| != |received|
    ensures multiset(Keys(sent)) != multiset(Keys(received))
  {
    assert |multiset(Keys(sent))| == |sent| && |multiset(Keys(received))| == |received|;
  }
}
