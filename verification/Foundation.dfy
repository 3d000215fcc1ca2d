/** The foundation scenario's transcript: receipts of two directions arrive in any
    interleaving, are numbered per direction, and are sorted before they are compared. */
module Foundation {
  import opened Hex
  import opened Transcript

  /** A message seen on its way in one direction. */
  datatype Receipt = Receipt(direction: string, channel: string, messageType: string, payload: Bytes)

  /** What does not change within a scenario. */
  datatype Context = Context(sha: Digest, run: string, association: string)

  function RecordOf(ctx: Context, r: Receipt, sequence: int): MessageRecord {
    FromPayload(ctx.sha, ctx.run, ctx.association, r.channel, r.direction, sequence, r.messageType, r.payload)
  }

  // ---------------------------------------------------------------- numbering

  function Along(receipts: seq<Receipt>, direction: string): seq<Receipt> {
    if receipts == [] then []
    else
      var front, last := receipts[..|receipts| - 1], receipts[|receipts| - 1];
      if last.direction == direction then Along(front, direction) + [last] else Along(front, direction)
  }

  /** Each receipt gets the next number of its direction, starting at 1. */
  function Numbered(ctx: Context, receipts: seq<Receipt>): seq<MessageRecord> {
    if receipts == [] then []
    else
      var front, last := receipts[..|receipts| - 1], receipts[|receipts| - 1];
      Numbered(ctx, front) + [RecordOf(ctx, last, |Along(front, last.direction)| + 1)]
  }

  function CountDirection(records: seq<MessageRecord>, direction: string): nat {
    if records == [] then 0
    else CountDirection(records[1..], direction) + if records[0].direction == direction then 1 else 0
  }

  lemma {:induction false} CountDirectionAppend(a: seq<MessageRecord>, b: seq<MessageRecord>, direction: string)
    ensures CountDirection(a + b, direction) == CountDirection(a, direction) + CountDirection(b, direction)
  {
    if a == [] {
      assert a + b == b;
    } else {
      assert (a + b)[1..] == a[1..] + b;
      CountDirectionAppend(a[1..], b, direction);
    }
  }

  lemma {:induction false} CountOfNumbered(ctx: Context, receipts: seq<Receipt>, direction: string)
    ensures CountDirection(Numbered(ctx, receipts), direction) == |Along(receipts, direction)|
  {
    if receipts != [] {
      var front := receipts[..|receipts| - 1];
      CountOfNumbered(ctx, front, direction);
      var last := Numbered(ctx, receipts)[|Numbered(ctx, receipts)| - 1];
      CountDirectionAppend(Numbered(ctx, front), [last], direction);
      assert CountDirection([last], direction) == if last.direction == direction then 1 else 0;
    }
  }

  /** The receipt loop, which counts the records already received in the same direction. */
  method NumberReceipts(ctx: Context, receipts: seq<Receipt>) returns (received: seq<MessageRecord>)
    ensures received == Numbered(ctx, receipts)
  {
    received := [];
    for k := 0 to |receipts|
      invariant received == Numbered(ctx, receipts[..k])
    {
      var receipt := receipts[k];
      var sequence := 0;
      for j := 0 to |received|
        invariant sequence == CountDirection(received[..j], receipt.direction)
      {
        if received[j].direction == receipt.direction {
          sequence := sequence + 1;
        }
        assert received[..j + 1] == received[..j] + [received[j]];
        CountDirectionAppend(received[..j], [received[j]], receipt.direction);
      }
      assert received[..|received|] == received;
      CountOfNumbered(ctx, receipts[..k], receipt.direction);
      received := received + [RecordOf(ctx, receipt, sequence + 1)];
      assert receipts[..k + 1][..k] == receipts[..k];
    }
    assert receipts[..|receipts|] == receipts;
  }

  /** A record determines its receipt and its number. */
  lemma RecordsAreInjective(ctx: Context, a: Receipt, m: int, b: Receipt, n: int)
    ensures RecordOf(ctx, a, m) == RecordOf(ctx, b, n) <==> a == b && m == n
  {
    if Encode(a.payload) == Encode(b.payload) {
      EncodeIsInjective(a.payload, b.payload);
    }
  }

  /** Exactly the `n`-th receipt of a direction becomes the record numbered `n`. */
  lemma {:induction false} NumberedContents(ctx: Context, receipts: seq<Receipt>, r: MessageRecord)
    ensures r in Numbered(ctx, receipts) <==>
            var along := Along(receipts, r.direction);
            1 <= r.sequence <= |along| && r == RecordOf(ctx, along[r.sequence - 1], r.sequence)
  {
    if receipts != [] {
      var front, last := receipts[..|receipts| - 1], receipts[|receipts| - 1];
      NumberedContents(ctx, front, r);
      AlongKeepsDirection(front, r.direction);
    }
  }

  lemma {:induction false} AlongKeepsDirection(receipts: seq<Receipt>, direction: string)
    ensures forall r <- Along(receipts, direction) :: r.direction == direction
  {
    if receipts != [] {
      AlongKeepsDirection(receipts[..|receipts| - 1], direction);
    }
  }

  /** Numbers never repeat within a direction. */
  ghost predicate DistinctPlaces(records: seq<MessageRecord>) {
    forall i, j | 0 <= i < j < |records| ::
      records[i].sequence != records[j].sequence || records[i].direction != records[j].direction
  }

  lemma {:induction false} NumberedIsDistinct(ctx: Context, receipts: seq<Receipt>)
    ensures DistinctPlaces(Numbered(ctx, receipts))
  {
    if receipts != [] {
      var front, last := receipts[..|receipts| - 1], receipts[|receipts| - 1];
      var before := Numbered(ctx, front);
      NumberedIsDistinct(ctx, front);
      forall i | 0 <= i < |before|
        ensures before[i].direction == last.direction ==> before[i].sequence < |Along(front, last.direction)| + 1
      {
        NumberedContents(ctx, front, before[i]);
      }
    }
  }

  // ---------------------------------------------------------------- sorting

  /** Lexicographic order on text, by code point. */
  predicate TextLeq(a: string, b: string) {
    a == "" || (b != "" && (a[0] < b[0] || (a[0] == b[0] && TextLeq(a[1..], b[1..]))))
  }

  lemma {:induction false} TextLeqTotal(a: string, b: string)
    ensures TextLeq(a, b) || TextLeq(b, a)
    ensures TextLeq(a, b) && TextLeq(b, a) ==> a == b
  {
    if a != "" && b != "" && a[0] == b[0] {
      TextLeqTotal(a[1..], b[1..]);
      assert a == [a[0]] + a[1..] && b == [b[0]] + b[1..];
    }
  }

  lemma {:induction false} TextLeqTransitive(a: string, b: string, c: string)
    requires TextLeq(a, b) && TextLeq(b, c)
    ensures TextLeq(a, c)
  {
    if a != "" && a[0] == b[0] && b[0] == c[0] {
      TextLeqTransitive(a[1..], b[1..], c[1..]);
    }
  }

  /** The sort key of the scenario: sequence number, then direction. */
  predicate PlaceLeq(a: MessageRecord, b: MessageRecord) {
    a.sequence < b.sequence || (a.sequence == b.sequence && TextLeq(a.direction, b.direction))
  }

  lemma PlaceLeqOrder(a: MessageRecord, b: MessageRecord, c: MessageRecord)
    ensures PlaceLeq(a, b) || PlaceLeq(b, a)
    ensures PlaceLeq(a, b) && PlaceLeq(b, c) ==> PlaceLeq(a, c)
    ensures PlaceLeq(a, b) && PlaceLeq(b, a) ==> a.sequence == b.sequence && a.direction == b.direction
  {
    TextLeqTotal(a.direction, b.direction);
    if TextLeq(a.direction, b.direction) && TextLeq(b.direction, c.direction) {
      TextLeqTransitive(a.direction, b.direction, c.direction);
    }
  }

  ghost predicate IsSorted(s: seq<MessageRecord>) {
    forall i, j | 0 <= i < j < |s| :: PlaceLeq(s[i], s[j])
  }

  ghost predicate IsSortOf(sorted: seq<MessageRecord>, s: seq<MessageRecord>) {
    IsSorted(sorted) && multiset(sorted) == multiset(s)
  }

  function Insert(r: MessageRecord, s: seq<MessageRecord>): seq<MessageRecord> {
    if s == [] || !PlaceLeq(s[0], r) then [r] + s else [s[0]] + Insert(r, s[1..])
  }

  /** `list.sort` with that key; equal keys keep their order. */
  function Sort(s: seq<MessageRecord>): seq<MessageRecord> {
    if s == [] then [] else Insert(s[|s| - 1], Sort(s[..|s| - 1]))
  }

  lemma {:induction false} InsertPermutes(r: MessageRecord, s: seq<MessageRecord>)
    ensures multiset(Insert(r, s)) == multiset(s) + multiset{r}
  {
    if s != [] && PlaceLeq(s[0], r) {
      InsertPermutes(r, s[1..]);
      assert s == [s[0]] + s[1..];
    }
  }

  /** Bounded below by `q`. */
  ghost predicate After(q: MessageRecord, s: seq<MessageRecord>) {
    forall r <- s :: PlaceLeq(q, r)
  }

  lemma SortedCons(q: MessageRecord, s: seq<MessageRecord>)
    requires IsSorted(s) && After(q, s)
    ensures IsSorted([q] + s)
  {
  }

  lemma {:induction false} InsertSorts(r: MessageRecord, s: seq<MessageRecord>)
    requires IsSorted(s)
    ensures IsSorted(Insert(r, s))
  {
    if s == [] {
    } else if PlaceLeq(s[0], r) {
      InsertSorts(r, s[1..]);
      InsertPermutes(r, s[1..]);
      forall q <- Insert(r, s[1..])
        ensures PlaceLeq(s[0], q)
      {
        assert q in multiset(Insert(r, s[1..]));
      }
      SortedCons(s[0], Insert(r, s[1..]));
    } else {
      forall q <- s
        ensures PlaceLeq(r, q)
      {
        PlaceLeqOrder(r, s[0], q);
      }
      SortedCons(r, s);
    }
  }

  lemma {:induction false} SortSorts(s: seq<MessageRecord>)
    ensures IsSortOf(Sort(s), s)
  {
    if s != [] {
      var front, last := s[..|s| - 1], s[|s| - 1];
      SortSorts(front);
      InsertSorts(last, Sort(front));
      InsertPermutes(last, Sort(front));
      assert s == front + [last];
    }
  }

  /** No element twice, and no two elements in the same place. */
  ghost predicate PlacesDiffer(m: multiset<MessageRecord>) {
    && (forall r <- m :: m[r] == 1)
    && forall q <- m, r <- m :: q.sequence == r.sequence && q.direction == r.direction ==> q == r
  }

  lemma {:induction false} DistinctListsHaveDifferentPlaces(s: seq<MessageRecord>)
    requires DistinctPlaces(s)
    ensures PlacesDiffer(multiset(s))
  {
    if s != [] {
      var front, last := s[..|s| - 1], s[|s| - 1];
      DistinctListsHaveDifferentPlaces(front);
      assert s == front + [last];
      assert last !in multiset(front);
    }
  }

  /** With different places there is only one sorted arrangement. */
  lemma {:induction false} SortedIsUnique(a: seq<MessageRecord>, b: seq<MessageRecord>)
    requires IsSorted(a) && IsSorted(b) && multiset(a) == multiset(b) && PlacesDiffer(multiset(a))
    ensures a == b
  {
    SameSize(a, b);
    if a != [] {
      SameHead(a, b);
      RestOf(a);
      RestOf(b);
      FewerPlaces(multiset(a), a[0]);
      SortedIsUnique(a[1..], b[1..]);
      Rejoined(a, b);
    }
  }

  lemma Rejoined(a: seq<MessageRecord>, b: seq<MessageRecord>)
    requires a != [] && b != [] && a[0] == b[0] && a[1..] == b[1..]
    ensures a == b
  {
    assert a == [a[0]] + a[1..] && b == [b[0]] + b[1..];
  }

  lemma SameSize(a: seq<MessageRecord>, b: seq<MessageRecord>)
    requires multiset(a) == multiset(b)
    ensures |a| == |b|
  {
    assert |multiset(a)| == |a| && |multiset(b)| == |b|;
  }

  lemma RestOf(a: seq<MessageRecord>)
    requires a != [] && IsSorted(a)
    ensures IsSorted(a[1..]) && multiset(a[1..]) == multiset(a) - multiset{a[0]}
  {
    assert a == [a[0]] + a[1..];
  }

  lemma FewerPlaces(m: multiset<MessageRecord>, r: MessageRecord)
    requires PlacesDiffer(m)
    ensures PlacesDiffer(m - multiset{r})
  {
  }

  lemma SameHead(a: seq<MessageRecord>, b: seq<MessageRecord>)
    requires a != [] && b != [] && IsSorted(a) && IsSorted(b) && multiset(a) == multiset(b) && PlacesDiffer(multiset(a))
    ensures a[0] == b[0]
  {
    assert a[0] in multiset(b) && b[0] in multiset(a);
    var i :| 0 <= i < |b| && b[i] == a[0];
    var j :| 0 <= j < |a| && a[j] == b[0];
    assert i > 0 ==> PlaceLeq(b[0], a[0]);
    assert j > 0 ==> PlaceLeq(a[0], b[0]);
    PlaceLeqOrder(a[0], b[0], a[0]);
  }

  // ---------------------------------------------------------------- the canonical comparison

  ghost predicate SameAlong(x: seq<Receipt>, y: seq<Receipt>) {
    forall direction :: Along(x, direction) == Along(y, direction)
  }

  lemma SameRecordsSameReceipt(ctx: Context, x: seq<Receipt>, y: seq<Receipt>, direction: string, i: nat)
    requires forall r <- Numbered(ctx, x) :: r in Numbered(ctx, y)
    requires i < |Along(x, direction)|
    ensures i < |Along(y, direction)| && Along(x, direction)[i] == Along(y, direction)[i]
  {
    var a, b := Along(x, direction), Along(y, direction);
    AlongKeepsDirection(x, direction);
    var r := RecordOf(ctx, a[i], i + 1);
    NumberedContents(ctx, x, r);
    NumberedContents(ctx, y, r);
    RecordsAreInjective(ctx, a[i], i + 1, b[i], i + 1);
  }

  lemma SameRecordsSameAlong(ctx: Context, x: seq<Receipt>, y: seq<Receipt>, direction: string)
    requires forall r :: r in Numbered(ctx, x) <==> r in Numbered(ctx, y)
    ensures Along(x, direction) == Along(y, direction)
  {
    var a, b := Along(x, direction), Along(y, direction);
    if |a| > |b| {
      SameRecordsSameReceipt(ctx, x, y, direction, |b|);
    } else if |b| > |a| {
      SameRecordsSameReceipt(ctx, y, x, direction, |a|);
    }
    forall i | 0 <= i < |a|
      ensures a[i] == b[i]
    {
      SameRecordsSameReceipt(ctx, x, y, direction, i);
    }
  }

  lemma SameAlongSameRecords(ctx: Context, x: seq<Receipt>, y: seq<Receipt>)
    requires SameAlong(x, y)
    ensures multiset(Numbered(ctx, x)) == multiset(Numbered(ctx, y))
  {
    var a, b := Numbered(ctx, x), Numbered(ctx, y);
    NumberedIsDistinct(ctx, x);
    NumberedIsDistinct(ctx, y);
    DistinctListsHaveDifferentPlaces(a);
    DistinctListsHaveDifferentPlaces(b);
    forall r
      ensures multiset(a)[r] == multiset(b)[r]
    {
      NumberedContents(ctx, x, r);
      NumberedContents(ctx, y, r);
      assert r in a <==> r in multiset(a);
      assert r in b <==> r in multiset(b);
    }
  }

  /** However the two directions interleave, numbering per direction and sorting makes the
      ordered comparison pass exactly when each direction carries the same messages in the
      same order. */
  lemma CanonicalComparison(ctx: Context, x: seq<Receipt>, y: seq<Receipt>)
    ensures OrderedFailures(Sort(Numbered(ctx, x)), Sort(Numbered(ctx, y))) == [] <==> SameAlong(x, y)
  {
    var a, b := Numbered(ctx, x), Numbered(ctx, y);
    SortSorts(a);
    SortSorts(b);
    OrderedPassIffEqual(Sort(a), Sort(b));
    if Sort(a) == Sort(b) {
      assert forall r :: (r in a <==> r in multiset(a)) && (r in b <==> r in multiset(b));
      forall direction
        ensures Along(x, direction) == Along(y, direction)
      {
        SameRecordsSameAlong(ctx, x, y, direction);
      }
    }
    if SameAlong(x, y) {
      SameAlongSameRecords(ctx, x, y);
      NumberedIsDistinct(ctx, x);
      DistinctListsHaveDifferentPlaces(a);
      SortedIsUnique(Sort(a), Sort(b));
    }
  }

  // ---------------------------------------------------------------- the scenario

  const TO_AIORTC: string := "chromium-to-aiortc"
  const TO_CHROMIUM: string := "aiortc-to-chromium"
  const LABEL: string := "foundation"

  /** A message event of an endpoint: the channel's label, the type, the payload. */
  datatype Note = Note(channel: string, messageType: string, payload: Bytes)

  function AsReceipts(notes: seq<Note>, direction: string): seq<Receipt> {
    seq(|notes|, i requires 0 <= i < |notes| => Receipt(direction, notes[i].channel, notes[i].messageType, notes[i].payload))
  }

  /** What is sent in one direction; `payload` stands for the deterministic payload. */
  function SentNotes(types: seq<string>, direction: string, payload: (string, nat, string) -> Bytes): seq<Note> {
    seq(|types|, i requires 0 <= i < |types| => Note("foundation", types[i], payload(direction, i + 1, types[i])))
  }

  /** The order of sending: each type in both directions, before the next type. */
  function SendOrder(types: seq<string>, payload: (string, nat, string) -> Bytes): seq<Receipt> {
    if types == [] then []
    else
      var n, t := |types|, types[|types| - 1];
      SendOrder(types[..n - 1], payload)
      + [Receipt(TO_AIORTC, LABEL, t, payload(TO_AIORTC, n, t)), Receipt(TO_CHROMIUM, LABEL, t, payload(TO_CHROMIUM, n, t))]
  }

  lemma {:induction false} AlongAppend(a: seq<Receipt>, b: seq<Receipt>, direction: string)
    ensures Along(a + b, direction) == Along(a, direction) + Along(b, direction)
  {
    if b == [] {
      assert a + b == a;
    } else {
      assert (a + b)[..|a + b| - 1] == a + b[..|b| - 1];
      AlongAppend(a, b[..|b| - 1], direction);
    }
  }

  lemma {:induction false} AlongUniform(notes: seq<Note>, own: string, direction: string)
    ensures Along(AsReceipts(notes, own), direction) == if own == direction then AsReceipts(notes, own) else []
  {
    if notes != [] {
      var receipts, front := AsReceipts(notes, own), notes[..|notes| - 1];
      AlongUniform(front, own, direction);
      assert receipts[..|receipts| - 1] == AsReceipts(front, own);
      assert receipts == AsReceipts(front, own) + [receipts[|receipts| - 1]];
    }
  }

  lemma AlongOne(a: Receipt, direction: string)
    ensures Along([a], direction) == if a.direction == direction then [a] else []
  {
    assert [a][..0] == [];
  }

  lemma AlongPair(a: Receipt, b: Receipt, direction: string)
    ensures Along([a, b], direction) == (if a.direction == direction then [a] else []) + (if b.direction == direction then [b] else [])
  {
    assert [a, b] == [a] + [b];
    AlongAppend([a], [b], direction);
    AlongOne(a, direction);
    AlongOne(b, direction);
  }

  /** The receipts of what is sent in one direction. */
  function SentAlong(types: seq<string>, direction: string, payload: (string, nat, string) -> Bytes): seq<Receipt> {
    AsReceipts(SentNotes(types, direction, payload), direction)
  }

  lemma SentAlongGrows(types: seq<string>, direction: string, payload: (string, nat, string) -> Bytes)
    requires types != []
    ensures var n, t := |types|, types[|types| - 1];
            SentAlong(types, direction, payload)
            == SentAlong(types[..n - 1], direction, payload) + [Receipt(direction, LABEL, t, payload(direction, n, t))]
  {
  }

  lemma {:induction false} AlongSendOrder(types: seq<string>, payload: (string, nat, string) -> Bytes, direction: string)
    ensures Along(SendOrder(types, payload), direction)
            == if direction == TO_AIORTC || direction == TO_CHROMIUM then SentAlong(types, direction, payload) else []
  {
    DirectionsDiffer();
    if types != [] {
      var n, t, front := |types|, types[|types| - 1], types[..|types| - 1];
      AlongSendOrder(front, payload, direction);
      SentAlongGrows(types, direction, payload);
      SendStep(SendOrder(front, payload), t, n, payload, direction);
    }
  }

  lemma SendStep(before: seq<Receipt>, t: string, n: nat, payload: (string, nat, string) -> Bytes, direction: string)
    ensures var pair := [Receipt(TO_AIORTC, LABEL, t, payload(TO_AIORTC, n, t)), Receipt(TO_CHROMIUM, LABEL, t, payload(TO_CHROMIUM, n, t))];
            Along(before + pair, direction)
            == Along(before, direction)
               + if direction == TO_AIORTC || direction == TO_CHROMIUM then [Receipt(direction, LABEL, t, payload(direction, n, t))] else []
  {
    DirectionsDiffer();
    var out, back := Receipt(TO_AIORTC, LABEL, t, payload(TO_AIORTC, n, t)), Receipt(TO_CHROMIUM, LABEL, t, payload(TO_CHROMIUM, n, t));
    AlongAppend(before, [out, back], direction);
    AlongPair(out, back, direction);
  }

  lemma DirectionsDiffer()
    ensures TO_AIORTC != TO_CHROMIUM
  {
    assert TO_AIORTC[0] != TO_CHROMIUM[0];
  }

  /** The sending loop numbers by type; that is the same as numbering per direction. */
  method BuildSent(ctx: Context, types: seq<string>, payload: (string, nat, string) -> Bytes) returns (sent: seq<MessageRecord>)
    ensures sent == Numbered(ctx, SendOrder(types, payload))
  {
    sent := [];
    for k := 0 to |types|
      invariant sent == Numbered(ctx, SendOrder(types[..k], payload))
    {
      var t := types[k];
      ghost var before := SendOrder(types[..k], payload);
      var out := Receipt(TO_AIORTC, LABEL, t, payload(TO_AIORTC, k + 1, t));
      var back := Receipt(TO_CHROMIUM, LABEL, t, payload(TO_CHROMIUM, k + 1, t));
      SendNumbers(ctx, types[..k], payload, out, back);
      sent := sent + [RecordOf(ctx, out, k + 1)];
      sent := sent + [RecordOf(ctx, back, k + 1)];
      assert types[..k + 1][..k] == types[..k];
      assert SendOrder(types[..k + 1], payload) == before + [out, back];
    }
    assert types[..|types|] == types;
  }

  lemma SendNumbers(ctx: Context, types: seq<string>, payload: (string, nat, string) -> Bytes, out: Receipt, back: Receipt)
    requires out.direction == TO_AIORTC && back.direction == TO_CHROMIUM
    ensures var before := SendOrder(types, payload);
            Numbered(ctx, before + [out, back])
            == Numbered(ctx, before) + [RecordOf(ctx, out, |types| + 1)] + [RecordOf(ctx, back, |types| + 1)]
  {
    var before := SendOrder(types, payload);
    SentCounts(types, payload, out);
    NumberedLast(ctx, before, out);
    NumberedLast(ctx, before + [out], back);
    assert before + [out, back] == before + [out] + [back];
  }

  lemma SentCounts(types: seq<string>, payload: (string, nat, string) -> Bytes, out: Receipt)
    requires out.direction == TO_AIORTC
    ensures var before := SendOrder(types, payload);
            |Along(before, TO_AIORTC)| == |types| && |Along(before + [out], TO_CHROMIUM)| == |types|
  {
    DirectionsDiffer();
    AlongSendOrder(types, payload, TO_AIORTC);
    AlongSendOrder(types, payload, TO_CHROMIUM);
    AlongAppend(SendOrder(types, payload), [out], TO_CHROMIUM);
    AlongOne(out, TO_CHROMIUM);
  }

  lemma NumberedLast(ctx: Context, receipts: seq<Receipt>, last: Receipt)
    ensures Numbered(ctx, receipts + [last]) == Numbered(ctx, receipts) + [RecordOf(ctx, last, |Along(receipts, last.direction)| + 1)]
  {
    assert (receipts + [last])[..|receipts|] == receipts;
  }

  // ---------------------------------------------------------------- what the scenario compares

  /** A record of one direction: the `n`-th note with number `n`. */
  ghost predicate IsRecordOf(ctx: Context, notes: seq<Note>, direction: string, r: MessageRecord) {
    && 1 <= r.sequence <= |notes|
    && var note := notes[r.sequence - 1];
    r == MessageRecord(ctx.run, ctx.association, note.channel, direction, r.sequence, note.messageType,
                       |note.payload|, ctx.sha(note.payload), Encode(note.payload))
  }

  /** By number, and within a number what goes to Chromium before what goes to aiortc. */
  ghost predicate InOrder(records: seq<MessageRecord>) {
    forall i, j | 0 <= i < j < |records| ::
      || records[i].sequence < records[j].sequence
      || (records[i].sequence == records[j].sequence
          && records[i].direction == "aiortc-to-chromium" && records[j].direction == "chromium-to-aiortc")
  }

  /** Exactly the records of the two directions, in that order. */
  ghost predicate IsCanonical(ctx: Context, toChromium: seq<Note>, toAiortc: seq<Note>, records: seq<MessageRecord>) {
    && |records| == |toChromium| + |toAiortc| && InOrder(records)
    && forall r :: r in records <==>
         IsRecordOf(ctx, toChromium, "aiortc-to-chromium", r) || IsRecordOf(ctx, toAiortc, "chromium-to-aiortc", r)
  }

  function SentRecords(ctx: Context, types: seq<string>, payload: (string, nat, string) -> Bytes): seq<MessageRecord> {
    Sort(Numbered(ctx, SendOrder(types, payload)))
  }

  function ReceivedRecords(ctx: Context, chromiumNotes: seq<Note>, aiortcNotes: seq<Note>): seq<MessageRecord> {
    Sort(Numbered(ctx, AsReceipts(chromiumNotes, TO_CHROMIUM) + AsReceipts(aiortcNotes, TO_AIORTC)))
  }

  /** Receipts that carry these notes in the two directions and nothing else. */
  ghost predicate Carries(receipts: seq<Receipt>, toChromium: seq<Note>, toAiortc: seq<Note>) {
    && |receipts| == |toChromium| + |toAiortc|
    && forall direction ::
         Along(receipts, direction)
         == if direction == TO_AIORTC then AsReceipts(toAiortc, TO_AIORTC)
            else if direction == TO_CHROMIUM then AsReceipts(toChromium, TO_CHROMIUM) else []
  }

  lemma SendOrderCarries(types: seq<string>, payload: (string, nat, string) -> Bytes)
    ensures Carries(SendOrder(types, payload), SentNotes(types, TO_CHROMIUM, payload), SentNotes(types, TO_AIORTC, payload))
  {
    forall direction
      ensures Along(SendOrder(types, payload), direction)
              == if direction == TO_AIORTC || direction == TO_CHROMIUM then SentAlong(types, direction, payload) else []
    {
      AlongSendOrder(types, payload, direction);
    }
    SendOrderLength(types, payload);
  }

  lemma {:induction false} SendOrderLength(types: seq<string>, payload: (string, nat, string) -> Bytes)
    ensures |SendOrder(types, payload)| == 2 * |types|
  {
    if types != [] {
      SendOrderLength(types[..|types| - 1], payload);
    }
  }

  lemma ReceiptsCarry(chromiumNotes: seq<Note>, aiortcNotes: seq<Note>)
    ensures Carries(AsReceipts(chromiumNotes, TO_CHROMIUM) + AsReceipts(aiortcNotes, TO_AIORTC), chromiumNotes, aiortcNotes)
  {
    DirectionsDiffer();
    forall direction
      ensures Along(AsReceipts(chromiumNotes, TO_CHROMIUM) + AsReceipts(aiortcNotes, TO_AIORTC), direction)
              == if direction == TO_AIORTC then AsReceipts(aiortcNotes, TO_AIORTC)
                 else if direction == TO_CHROMIUM then AsReceipts(chromiumNotes, TO_CHROMIUM) else []
    {
      AlongAppend(AsReceipts(chromiumNotes, TO_CHROMIUM), AsReceipts(aiortcNotes, TO_AIORTC), direction);
      AlongUniform(chromiumNotes, TO_CHROMIUM, direction);
      AlongUniform(aiortcNotes, TO_AIORTC, direction);
    }
  }

  lemma CarriedRecord(ctx: Context, receipts: seq<Receipt>, toChromium: seq<Note>, toAiortc: seq<Note>, r: MessageRecord)
    requires Carries(receipts, toChromium, toAiortc)
    ensures r in Numbered(ctx, receipts)
            <==> IsRecordOf(ctx, toChromium, "aiortc-to-chromium", r) || IsRecordOf(ctx, toAiortc, "chromium-to-aiortc", r)
  {
    NumberedContents(ctx, receipts, r);
    DirectionsDiffer();
    if r.direction == TO_AIORTC {
      AlongRecord(ctx, toAiortc, TO_AIORTC, r);
    } else if r.direction == TO_CHROMIUM {
      AlongRecord(ctx, toChromium, TO_CHROMIUM, r);
    }
  }

  lemma AlongRecord(ctx: Context, notes: seq<Note>, direction: string, r: MessageRecord)
    requires r.direction == direction
    ensures var along := AsReceipts(notes, direction);
            (1 <= r.sequence <= |along| && r == RecordOf(ctx, along[r.sequence - 1], r.sequence)) <==> IsRecordOf(ctx, notes, direction, r)
  {
  }

  lemma {:induction false} NumberedLength(ctx: Context, receipts: seq<Receipt>)
    ensures |Numbered(ctx, receipts)| == |receipts|
  {
    if receipts != [] {
      NumberedLength(ctx, receipts[..|receipts| - 1]);
    }
  }

  lemma DirectionOrder()
    ensures TextLeq(TO_CHROMIUM, TO_AIORTC) && !TextLeq(TO_AIORTC, TO_CHROMIUM)
  {
    assert TO_CHROMIUM[0] == 'a' && TO_AIORTC[0] == 'c';
  }

  /** Sorting by number and direction puts the records in canonical order. */
  lemma SortedIsCanonical(ctx: Context, receipts: seq<Receipt>, toChromium: seq<Note>, toAiortc: seq<Note>)
    requires Carries(receipts, toChromium, toAiortc)
    ensures IsCanonical(ctx, toChromium, toAiortc, Sort(Numbered(ctx, receipts)))
  {
    var records, sorted := Numbered(ctx, receipts), Sort(Numbered(ctx, receipts));
    SortSorts(records);
    SameSize(sorted, records);
    NumberedLength(ctx, receipts);
    NumberedIsDistinct(ctx, receipts);
    DistinctListsHaveDifferentPlaces(records);
    forall r
      ensures r in sorted <==>
                IsRecordOf(ctx, toChromium, "aiortc-to-chromium", r) || IsRecordOf(ctx, toAiortc, "chromium-to-aiortc", r)
    {
      CarriedRecord(ctx, receipts, toChromium, toAiortc, r);
      assert r in sorted <==> r in multiset(sorted);
      assert r in records <==> r in multiset(records);
    }
    SortedInOrder(sorted);
  }

  lemma SortedInOrder(sorted: seq<MessageRecord>)
    requires IsSorted(sorted) && PlacesDiffer(multiset(sorted))
    requires forall r <- sorted :: r.direction == TO_CHROMIUM || r.direction == TO_AIORTC
    ensures InOrder(sorted)
  {
    DirectionOrder();
    forall i, j | 0 <= i < j < |sorted|
      ensures sorted[i].sequence < sorted[j].sequence
              || (sorted[i].sequence == sorted[j].sequence
                  && sorted[i].direction == "aiortc-to-chromium" && sorted[j].direction == "chromium-to-aiortc")
    {
      TwoPlaces(sorted, i, j);
      assert sorted[i] in sorted && sorted[j] in sorted && PlaceLeq(sorted[i], sorted[j]);
    }
  }

  lemma TwoPlaces(s: seq<MessageRecord>, i: nat, j: nat)
    requires i < j < |s| && PlacesDiffer(multiset(s))
    ensures s[i].sequence != s[j].sequence || s[i].direction != s[j].direction
  {
    assert s[i] in multiset(s) && s[j] in multiset(s);
    if s[i] == s[j] {
      TwiceIn(s, i, j);
    }
  }

  lemma TwiceIn(s: seq<MessageRecord>, i: nat, j: nat)
    requires i < j < |s| && s[i] == s[j]
    ensures multiset(s)[s[i]] >= 2
  {
    assert s == s[..j] + [s[j]] + s[j + 1..];
    assert s[i] == s[..j][i];
    assert multiset(s) == multiset(s[..j]) + multiset{s[j]} + multiset(s[j + 1..]);
  }

  /** The transcript part of the foundation scenario.  It passes exactly when each endpoint
      received what was sent to it: same labels, types and payloads, in the same order.  What
      it reports is the comparison of the records sent with those received, in canonical order. */
  method CompareTranscripts(ctx: Context, types: seq<string>, payload: (string, nat, string) -> Bytes,
                            chromiumNotes: seq<Note>, aiortcNotes: seq<Note>) returns (oracle: OracleResult)
    ensures oracle.verdict
            == if chromiumNotes == SentNotes(types, "aiortc-to-chromium", payload)
                  && aiortcNotes == SentNotes(types, "chromium-to-aiortc", payload) then PASS else FAIL
    ensures IsOrderedReport(SentRecords(ctx, types, payload), ReceivedRecords(ctx, chromiumNotes, aiortcNotes), oracle.failures)
    ensures IsCanonical(ctx, SentNotes(types, "aiortc-to-chromium", payload), SentNotes(types, "chromium-to-aiortc", payload),
                        SentRecords(ctx, types, payload))
    ensures IsCanonical(ctx, chromiumNotes, aiortcNotes, ReceivedRecords(ctx, chromiumNotes, aiortcNotes))
  {
    var sent := BuildSent(ctx, types, payload);
    var receipts := AsReceipts(chromiumNotes, TO_CHROMIUM) + AsReceipts(aiortcNotes, TO_AIORTC);
    var received := NumberReceipts(ctx, receipts);
    sent := Sort(sent);
    received := Sort(received);
    oracle := CompareOrdered(sent, received);
    TranscriptsCompared(ctx, types, payload, chromiumNotes, aiortcNotes);
  }

  lemma TranscriptsCompared(ctx: Context, types: seq<string>, payload: (string, nat, string) -> Bytes,
                            chromiumNotes: seq<Note>, aiortcNotes: seq<Note>)
    ensures var sent, received := SentRecords(ctx, types, payload), ReceivedRecords(ctx, chromiumNotes, aiortcNotes);
            && IsOrderedReport(sent, received, OrderedFailures(sent, received))
            && IsCanonical(ctx, SentNotes(types, TO_CHROMIUM, payload), SentNotes(types, TO_AIORTC, payload), sent)
            && IsCanonical(ctx, chromiumNotes, aiortcNotes, received)
            && (sent == received <==>
                  chromiumNotes == SentNotes(types, TO_CHROMIUM, payload) && aiortcNotes == SentNotes(types, TO_AIORTC, payload))
  {
    var receipts := AsReceipts(chromiumNotes, TO_CHROMIUM) + AsReceipts(aiortcNotes, TO_AIORTC);
    var sent, received := SentRecords(ctx, types, payload), ReceivedRecords(ctx, chromiumNotes, aiortcNotes);
    OrderedReport(sent, received);
    SendOrderCarries(types, payload);
    SortedIsCanonical(ctx, SendOrder(types, payload), SentNotes(types, TO_CHROMIUM, payload), SentNotes(types, TO_AIORTC, payload));
    ReceiptsCarry(chromiumNotes, aiortcNotes);
    SortedIsCanonical(ctx, receipts, chromiumNotes, aiortcNotes);
    OrderedPassIffEqual(sent, received);
    CanonicalComparison(ctx, SendOrder(types, payload), receipts);
    ReceivedAsSent(types, payload, chromiumNotes, aiortcNotes);
  }

  lemma ReceivedAsSent(types: seq<string>, payload: (string, nat, string) -> Bytes, chromiumNotes: seq<Note>, aiortcNotes: seq<Note>)
    ensures SameAlong(SendOrder(types, payload), AsReceipts(chromiumNotes, TO_CHROMIUM) + AsReceipts(aiortcNotes, TO_AIORTC))
            <==> chromiumNotes == SentNotes(types, TO_CHROMIUM, payload) && aiortcNotes == SentNotes(types, TO_AIORTC, payload)
  {
    DirectionsDiffer();
    var sent, received := SendOrder(types, payload), AsReceipts(chromiumNotes, TO_CHROMIUM) + AsReceipts(aiortcNotes, TO_AIORTC);
    SendOrderCarries(types, payload);
    ReceiptsCarry(chromiumNotes, aiortcNotes);
    AsReceiptsIsInjective(chromiumNotes, SentNotes(types, TO_CHROMIUM, payload), TO_CHROMIUM);
    AsReceiptsIsInjective(aiortcNotes, SentNotes(types, TO_AIORTC, payload), TO_AIORTC);
    if SameAlong(sent, received) {
      assert Along(sent, TO_AIORTC) == Along(received, TO_AIORTC);
      assert Along(sent, TO_CHROMIUM) == Along(received, TO_CHROMIUM);
    }
  }

  lemma AsReceiptsIsInjective(a: seq<Note>, b: seq<Note>, direction: string)
    ensures AsReceipts(a, direction) == AsReceipts(b, direction) <==> a == b
  {
    var x, y := AsReceipts(a, direction), AsReceipts(b, direction);
    if x == y {
      assert |a| == |x| == |y| == |b|;
      forall i | 0 <= i < |a|
        ensures a[i] == b[i]
      {
        assert x[i] == y[i];
      }
    }
  }
}
