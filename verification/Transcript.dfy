/** Message records and the two comparisons that judge a transcript. */
module Transcript {
  import opened Hex

  /** SHA-256 as lower-case hexadecimal text; nothing is assumed about it. */
  type Digest = Bytes -> string

  datatype MessageRecord = MessageRecord(
    run: string,
    association: string,
    channel: string,
    direction: string,
    sequence: int,
    messageType: string,
    length: nat,
    sha256: string,
    payloadHex: string)

  function FromPayload(sha: Digest, run: string, association: string, channel: string, direction: string,
                       sequence: int, messageType: string, payload: Bytes): MessageRecord {
    MessageRecord(run, association, channel, direction, sequence, messageType, |payload|, sha(payload), Encode(payload))
  }

  lemma RecordDeterminesMessage(sha: Digest, run: string, association: string, channel: string, direction: string,
                                sequence: int, t1: string, p1: Bytes, t2: string, p2: Bytes)
    ensures (FromPayload(sha, run, association, channel, direction, sequence, t1, p1)
             == FromPayload(sha, run, association, channel, direction, sequence, t2, p2))
            <==> (t1 == t2 && p1 == p2)
  {
    if Encode(p1) == Encode(p2) {
      EncodeIsInjective(p1, p2);
    }
  }

  datatype Verdict = PASS | FAIL | UNSUPPORTED | INFRA_ERROR

  /** What the source renders as text, kept as data. */
  datatype Failure =
    | LengthDiffers(sent: nat, received: nat)
    | RecordDiffers(index: nat, expected: MessageRecord, actual: MessageRecord)
    | ManifestDiffers(missing: multiset<Key>, unexpected: multiset<Key>)

  datatype OracleResult = OracleResult(verdict: Verdict, failures: seq<Failure>)

  function Judge(failures: seq<Failure>): OracleResult {
    OracleResult(if failures == [] then PASS else FAIL, failures)
  }

  function Min(a: nat, b: nat): nat {
    if a < b then a else b
  }

  // ---------------------------------------------------------------- ordered comparison

  /** The differing positions below `n`, in order. */
  function Differences(sent: seq<MessageRecord>, received: seq<MessageRecord>, n: nat): seq<Failure>
    requires n <= |sent| && n <= |received|
  {
    if n == 0 then []
    else Differences(sent, received, n - 1)
         + if sent[n - 1] != received[n - 1] then [RecordDiffers(n - 1, sent[n - 1], received[n - 1])] else []
  }

  function OrderedFailures(sent: seq<MessageRecord>, received: seq<MessageRecord>): seq<Failure> {
    (if |sent| != |received| then [LengthDiffers(|sent|, |received|)] else [])
    + Differences(sent, received, Min(|sent|, |received|))
  }

  /** `at` are the positions below `n` at which the records differ, in increasing order. */
  ghost predicate DifferAt(sent: seq<MessageRecord>, received: seq<MessageRecord>, n: nat, at: seq<nat>)
    requires n <= |sent| && n <= |received|
  {
    && (forall j, k | 0 <= j < k < |at| :: at[j] < at[k])
    && forall i: nat :: i in at <==> i < n && sent[i] != received[i]
  }

  /** One failure for each position: what was sent is expected, what was received is actual. */
  ghost predicate ReportedAt(sent: seq<MessageRecord>, received: seq<MessageRecord>, at: seq<nat>, ds: seq<Failure>) {
    && |ds| == |at|
    && forall k | 0 <= k < |at| ::
         at[k] < |sent| && at[k] < |received| && ds[k] == RecordDiffers(at[k], sent[at[k]], received[at[k]])
  }

  lemma DifferAtNext(sent: seq<MessageRecord>, received: seq<MessageRecord>, n: nat, at: seq<nat>)
    requires n < |sent| && n < |received| && DifferAt(sent, received, n, at)
    ensures if sent[n] != received[n] then DifferAt(sent, received, n + 1, at + [n]) else DifferAt(sent, received, n + 1, at)
  {
    assert forall k | 0 <= k < |at| :: at[k] in at;
  }

  lemma ReportedNext(sent: seq<MessageRecord>, received: seq<MessageRecord>, n: nat, at: seq<nat>, ds: seq<Failure>)
    requires n < |sent| && n < |received| && ReportedAt(sent, received, at, ds)
    ensures ReportedAt(sent, received, at + [n], ds + [RecordDiffers(n, sent[n], received[n])])
  {
  }

  lemma {:induction false} DifferencesAt(sent: seq<MessageRecord>, received: seq<MessageRecord>, n: nat) returns (at: seq<nat>)
    requires n <= |sent| && n <= |received|
    ensures DifferAt(sent, received, n, at) && ReportedAt(sent, received, at, Differences(sent, received, n))
  {
    if n == 0 {
      at := [];
    } else {
      var m, before := n - 1, Differences(sent, received, n - 1);
      at := DifferencesAt(sent, received, m);
      DifferAtNext(sent, received, m, at);
      if sent[m] != received[m] {
        ReportedNext(sent, received, m, at, before);
        at := at + [m];
        assert Differences(sent, received, n) == before + [RecordDiffers(m, sent[m], received[m])];
      } else {
        assert Differences(sent, received, n) == before;
      }
    }
  }

  /** The whole report of an ordered comparison: first the lengths if they differ, sent before
      received, then every position at which both lists have a record and the records differ. */
  ghost predicate IsOrderedReport(sent: seq<MessageRecord>, received: seq<MessageRecord>, failures: seq<Failure>) {
    var n := if |sent| < |received| then |sent| else |received|;
    exists at: seq<nat>, ds: seq<Failure> ::
      && DifferAt(sent, received, n, at) && ReportedAt(sent, received, at, ds)
      && failures == (if |sent| != |received| then [LengthDiffers(|sent|, |received|)] else []) + ds
  }

  lemma OrderedReport(sent: seq<MessageRecord>, received: seq<MessageRecord>)
    ensures IsOrderedReport(sent, received, OrderedFailures(sent, received))
  {
    var at := DifferencesAt(sent, received, Min(|sent|, |received|));
  }

  method CompareOrdered(sent: seq<MessageRecord>, received: seq<MessageRecord>) returns (r: OracleResult)
    ensures r == Judge(OrderedFailures(sent, received))
    ensures r.verdict == (if sent == received then PASS else FAIL)
  {
    var failures := [];
    if |sent| != |received| {
      failures := failures + [LengthDiffers(|sent|, |received|)];
    }
    ghost var heading := failures;
    for index := 0 to Min(|sent|, |received|)
      invariant failures == heading + Differences(sent, received, index)
    {
      if sent[index] != received[index] {
        failures := failures + [RecordDiffers(index, sent[index], received[index])];
      }
    }
    r := Judge(failures);
    OrderedPassIffEqual(sent, received);
  }

  lemma {:induction false} NoDifferences(sent: seq<MessageRecord>, received: seq<MessageRecord>, n: nat)
    requires n <= |sent| && n <= |received|
    ensures Differences(sent, received, n) == [] <==> sent[..n] == received[..n]
  {
    if n > 0 {
      NoDifferences(sent, received, n - 1);
      assert sent[..n] == sent[..n - 1] + [sent[n - 1]];
      assert received[..n] == received[..n - 1] + [received[n - 1]];
    }
  }

  lemma OrderedPassIffEqual(sent: seq<MessageRecord>, received: seq<MessageRecord>)
    ensures OrderedFailures(sent, received) == [] <==> sent == received
  {
    NoDifferences(sent, received, Min(|sent|, |received|));
    if |sent| == |received| {
      assert sent[..|sent|] == sent && received[..|sent|] == received;
    }
  }

  /** A list of differing positions below `n` in increasing order, with both records. */
  ghost predicate IsReport(sent: seq<MessageRecord>, received: seq<MessageRecord>, n: nat, ds: seq<Failure>)
    requires n <= |sent| && n <= |received|
  {
    && (forall f <- ds ::
          && f.RecordDiffers? && f.index < n && sent[f.index] != received[f.index]
          && f.expected == sent[f.index] && f.actual == received[f.index])
    && forall j, k | 0 <= j < k < |ds| :: ds[j].index < ds[k].index
  }

  lemma {:induction false} DifferencesAreTrue(sent: seq<MessageRecord>, received: seq<MessageRecord>, n: nat)
    requires n <= |sent| && n <= |received|
    ensures IsReport(sent, received, n, Differences(sent, received, n))
  {
    if n > 0 {
      DifferencesAreTrue(sent, received, n - 1);
      var before := Differences(sent, received, n - 1);
      assert forall k | 0 <= k < |before| :: before[k] in before;
    }
  }

  /** No differing position is left out of the report. */
  lemma {:induction false} DifferencesAreComplete(sent: seq<MessageRecord>, received: seq<MessageRecord>, n: nat, i: nat)
    requires i < n <= |sent| && n <= |received| && sent[i] != received[i]
    ensures RecordDiffers(i, sent[i], received[i]) in Differences(sent, received, n)
  {
    if i < n - 1 {
      DifferencesAreComplete(sent, received, n - 1, i);
    }
  }

  // ---------------------------------------------------------------- unordered comparison

  /** A record without its sequence number. */
  datatype Key = Key(
    run: string,
    association: string,
    channel: string,
    direction: string,
    messageType: string,
    length: nat,
    sha256: string,
    payloadHex: string)

  function KeyOf(r: MessageRecord): Key {
    Key(r.run, r.association, r.channel, r.direction, r.messageType, r.length, r.sha256, r.payloadHex)
  }

  function Keys(records: seq<MessageRecord>): seq<Key> {
    seq(|records|, i requires 0 <= i < |records| => KeyOf(records[i]))
  }

  function UnorderedFailures(sent: seq<MessageRecord>, received: seq<MessageRecord>): seq<Failure> {
    var expected, actual := multiset(Keys(sent)), multiset(Keys(received));
    if expected == actual then [] else [ManifestDiffers(expected - actual, actual - expected)]
  }

  function CompareUnordered(sent: seq<MessageRecord>, received: seq<MessageRecord>): (r: OracleResult)
    ensures r.verdict == PASS <==> multiset(Keys(sent)) == multiset(Keys(received))
  {
    Judge(UnorderedFailures(sent, received))
  }

  /** The reported difference is a correct and minimal account: undoing it turns what was
      sent into what was received, and nothing is both missing and unexpected. */
  lemma UnorderedDifferenceIsExact(sent: seq<MessageRecord>, received: seq<MessageRecord>)
    requires CompareUnordered(sent, received).verdict == FAIL
    ensures var f := CompareUnordered(sent, received).failures[0];
            && f.ManifestDiffers?
            && f.missing !! f.unexpected && f.missing + f.unexpected != multiset{}
            && f.missing <= multiset(Keys(sent)) && f.unexpected <= multiset(Keys(received))
            && multiset(Keys(sent)) - f.missing + f.unexpected == multiset(Keys(received))
  {
    var expected, actual := multiset(Keys(sent)), multiset(Keys(received));
    var f := CompareUnordered(sent, received).failures[0];
    assert expected - f.missing + f.unexpected == actual;
  }

  lemma OrderedPassImpliesUnorderedPass(sent: seq<MessageRecord>, received: seq<MessageRecord>)
    requires OrderedFailures(sent, received) == []
    ensures CompareUnordered(sent, received).verdict == PASS
  {
    OrderedPassIffEqual(sent, received);
  }
}
