/** Manifests of a product scenario: the records of every channel, one channel after the
    other, and what comparing two such manifests decides. */
module Manifests {
  import opened Wrappers
  import opened Selections
  import opened Hex
  import opened Transcript
  import Calibration

  datatype Message = Message(messageType: string, payload: Bytes)

  datatype Scenario = Scenario(name: string, peer: string, ordered: bool)

  const DEFAULT_ASSOCIATION := "baresip"

  function RecordOf(sha: Digest, scenario: Scenario, association: string, channel: string, sequence: int, m: Message): MessageRecord {
    FromPayload(sha, scenario.name, association, channel, scenario.peer + "-baresip-echo", sequence, m.messageType, m.payload)
  }

  /** The records of one channel, numbered from 1. */
  function Records(sha: Digest, scenario: Scenario, channel: string, values: seq<Message>, association: string): (rs: seq<MessageRecord>)
    ensures |rs| == |values|
  {
    seq(|values|, i requires 0 <= i < |values| => RecordOf(sha, scenario, association, channel, i + 1, values[i]))
  }

  /** One item of the dictionary from channel labels to values. */
  datatype Entry = Entry(channel: string, values: seq<Message>)

  /** A dictionary in insertion order. */
  ghost predicate IsDictionary(entries: seq<Entry>) {
    forall i, j | 0 <= i < j < |entries| :: entries[i].channel != entries[j].channel
  }

  function Manifest(sha: Digest, scenario: Scenario, entries: seq<Entry>): seq<MessageRecord> {
    if entries == [] then []
    else Records(sha, scenario, entries[0].channel, entries[0].values, DEFAULT_ASSOCIATION) + Manifest(sha, scenario, entries[1..])
  }

  function ScenarioFailures(sha: Digest, scenario: Scenario, expected: seq<Entry>, actual: seq<Entry>): seq<Failure> {
    var sent, received := Manifest(sha, scenario, expected), Manifest(sha, scenario, actual);
    if scenario.ordered then OrderedFailures(sent, received) else UnorderedFailures(sent, received)
  }

  /** Every field of a record: the scenario is the run, the direction names the peer, and the
      numbers count from 1. */
  lemma RecordsExactly(sha: Digest, scenario: Scenario, channel: string, values: seq<Message>, association: string)
    ensures var rs := Records(sha, scenario, channel, values, association);
            |rs| == |values| && forall i | 0 <= i < |rs| ::
              rs[i] == MessageRecord(scenario.name, association, channel, scenario.peer + "-baresip-echo", i + 1,
                                     values[i].messageType, |values[i].payload|, sha(values[i].payload), Encode(values[i].payload))
  {
  }

  /** A manifest is all about one run and the association "baresip". */
  lemma {:induction false} ManifestRun(sha: Digest, scenario: Scenario, entries: seq<Entry>)
    ensures forall r <- Manifest(sha, scenario, entries) ::
              r.run == scenario.name && r.association == "baresip" && r.direction == scenario.peer + "-baresip-echo"
  {
    if entries != [] {
      ManifestRun(sha, scenario, entries[1..]);
    }
  }

  // ---------------------------------------------------------------- ordered manifests

  lemma RecordsAreInjective(sha: Digest, scenario: Scenario, channel: string, v: seq<Message>, w: seq<Message>, association: string)
    requires Records(sha, scenario, channel, v, association) == Records(sha, scenario, channel, w, association)
    ensures v == w
  {
    var rs := Records(sha, scenario, channel, v, association);
    var ss := Records(sha, scenario, channel, w, association);
    assert |v| == |rs| == |ss| == |w|;
    forall i | 0 <= i < |v|
      ensures v[i] == w[i]
    {
      assert rs[i] == ss[i];
      RecordDeterminesMessage(sha, scenario.name, association, channel, scenario.peer + "-baresip-echo", i + 1,
                              v[i].messageType, v[i].payload, w[i].messageType, w[i].payload);
    }
  }

  /** The part of a manifest that belongs to one channel. */
  function OnChannel(manifest: seq<MessageRecord>, channel: string): seq<MessageRecord> {
    if manifest == [] then []
    else (if manifest[0].channel == channel then [manifest[0]] else []) + OnChannel(manifest[1..], channel)
  }

  lemma {:induction false} OnChannelAppend(a: seq<MessageRecord>, b: seq<MessageRecord>, channel: string)
    ensures OnChannel(a + b, channel) == OnChannel(a, channel) + OnChannel(b, channel)
  {
    if a == [] {
      assert a + b == b;
    } else {
      assert (a + b)[1..] == a[1..] + b;
      OnChannelAppend(a[1..], b, channel);
      Associate(if a[0].channel == channel then [a[0]] else [], OnChannel(a[1..], channel), OnChannel(b, channel));
    }
  }

  lemma {:induction false} OnOneChannel(manifest: seq<MessageRecord>, own: string, channel: string)
    requires forall r <- manifest :: r.channel == own
    ensures OnChannel(manifest, channel) == if own == channel then manifest else []
  {
    if manifest != [] {
      OnOneChannel(manifest[1..], own, channel);
    }
  }

  lemma {:induction false} OnAbsentChannel(sha: Digest, scenario: Scenario, entries: seq<Entry>, channel: string)
    requires forall e <- entries :: e.channel != channel
    ensures OnChannel(Manifest(sha, scenario, entries), channel) == []
  {
    if entries != [] {
      var first := Records(sha, scenario, entries[0].channel, entries[0].values, DEFAULT_ASSOCIATION);
      OnChannelAppend(first, Manifest(sha, scenario, entries[1..]), channel);
      OnOneChannel(first, entries[0].channel, channel);
      OnAbsentChannel(sha, scenario, entries[1..], channel);
    }
  }

  lemma OnFirstChannel(sha: Digest, scenario: Scenario, entries: seq<Entry>)
    requires entries != [] && IsDictionary(entries)
    ensures OnChannel(Manifest(sha, scenario, entries), entries[0].channel)
            == Records(sha, scenario, entries[0].channel, entries[0].values, DEFAULT_ASSOCIATION)
  {
    var channel := entries[0].channel;
    var first := Records(sha, scenario, channel, entries[0].values, DEFAULT_ASSOCIATION);
    OnChannelAppend(first, Manifest(sha, scenario, entries[1..]), channel);
    OnOneChannel(first, channel, channel);
    OnAbsentChannel(sha, scenario, entries[1..], channel);
  }

  /** The channels on which anything was sent. */
  function Used(entries: seq<Entry>): seq<Entry> {
    if entries == [] then []
    else (if entries[0].values != [] then [entries[0]] else []) + Used(entries[1..])
  }

  lemma {:induction false} UsedKeepsManifest(sha: Digest, scenario: Scenario, entries: seq<Entry>)
    requires IsDictionary(entries)
    ensures Manifest(sha, scenario, Used(entries)) == Manifest(sha, scenario, entries)
    ensures IsDictionary(Used(entries))
    ensures forall e <- Used(entries) :: e in entries && e.values != []
  {
    if entries != [] {
      UsedKeepsManifest(sha, scenario, entries[1..]);
      if entries[0].values != [] {
        assert Used(entries)[1..] == Used(entries[1..]);
      } else {
        assert Used(entries) == Used(entries[1..]);
        assert Records(sha, scenario, entries[0].channel, [], DEFAULT_ASSOCIATION) == [];
      }
    }
  }

  lemma WithoutFirst(sha: Digest, scenario: Scenario, entries: seq<Entry>)
    requires entries != []
    ensures |entries[0].values| <= |Manifest(sha, scenario, entries)|
    ensures Manifest(sha, scenario, entries)[|entries[0].values|..] == Manifest(sha, scenario, entries[1..])
  {
  }

  lemma {:induction false} ManifestDeterminesUsed(sha: Digest, scenario: Scenario, e: seq<Entry>, a: seq<Entry>)
    requires IsDictionary(e) && IsDictionary(a)
    requires forall x <- e + a :: x.values != []
    requires Manifest(sha, scenario, e) == Manifest(sha, scenario, a)
    ensures e == a
  {
    var m := Manifest(sha, scenario, e);
    assert forall x <- e :: x in e + a;
    assert forall x <- a :: x in e + a;
    if e != [] && a != [] {
      assert m[0].channel == e[0].channel && m[0].channel == a[0].channel;
      OnFirstChannel(sha, scenario, e);
      OnFirstChannel(sha, scenario, a);
      RecordsAreInjective(sha, scenario, e[0].channel, e[0].values, a[0].values, DEFAULT_ASSOCIATION);
      WithoutFirst(sha, scenario, e);
      WithoutFirst(sha, scenario, a);
      ManifestDeterminesUsed(sha, scenario, e[1..], a[1..]);
      assert e == [e[0]] + e[1..] && a == [a[0]] + a[1..];
    }
  }

  /** Concatenation loses nothing: the ordered comparison passes exactly when the same
      channels were used, in the same order, with the same messages in the same order. */
  lemma OrderedManifestsExact(sha: Digest, scenario: Scenario, expected: seq<Entry>, actual: seq<Entry>)
    requires IsDictionary(expected) && IsDictionary(actual) && scenario.ordered
    ensures ScenarioFailures(sha, scenario, expected, actual) == [] <==> Used(expected) == Used(actual)
  {
    UsedKeepsManifest(sha, scenario, expected);
    UsedKeepsManifest(sha, scenario, actual);
    OrderedPassIffEqual(Manifest(sha, scenario, expected), Manifest(sha, scenario, actual));
    if Manifest(sha, scenario, expected) == Manifest(sha, scenario, actual) {
      ManifestDeterminesUsed(sha, scenario, Used(expected), Used(actual));
    }
  }

  predicate SameChannels(expected: seq<Entry>, actual: seq<Entry>) {
    |expected| == |actual| && forall i | 0 <= i < |expected| :: expected[i].channel == actual[i].channel
  }

  lemma {:induction false} UsedDeterminesAll(e: seq<Entry>, a: seq<Entry>)
    requires IsDictionary(e) && IsDictionary(a) && SameChannels(e, a) && Used(e) == Used(a)
    ensures e == a
  {
    if e != [] {
      HeadIsNotLater(e);
      HeadIsNotLater(a);
      assert e[0].values != [] ==> Used(e)[0] == e[0] && Used(e)[1..] == Used(e[1..]);
      assert a[0].values != [] ==> Used(a)[0] == a[0] && Used(a)[1..] == Used(a[1..]);
      assert e[0].values == [] ==> Used(e) == Used(e[1..]);
      assert a[0].values == [] ==> Used(a) == Used(a[1..]);
      assert e[0].channel == a[0].channel && e[0] == a[0];
      UsedDeterminesAll(e[1..], a[1..]);
      assert e == [e[0]] + e[1..] && a == [a[0]] + a[1..];
    }
  }

  lemma HeadIsNotLater(entries: seq<Entry>)
    requires entries != [] && IsDictionary(entries)
    ensures forall e <- Used(entries[1..]) :: e.channel != entries[0].channel
  {
    UsedAreEntries(entries[1..]);
  }

  lemma {:induction false} UsedAreEntries(entries: seq<Entry>)
    ensures forall e <- Used(entries) :: e in entries
  {
    if entries != [] {
      UsedAreEntries(entries[1..]);
    }
  }

  /** The scenarios fill both dictionaries channel by channel; then the comparison passes
      exactly when every channel received what was sent on it. */
  lemma PerChannelExact(sha: Digest, scenario: Scenario, expected: seq<Entry>, actual: seq<Entry>)
    requires IsDictionary(expected) && SameChannels(expected, actual) && scenario.ordered
    ensures ScenarioFailures(sha, scenario, expected, actual) == []
            <==> forall i | 0 <= i < |expected| :: expected[i].values == actual[i].values
  {
    OrderedManifestsExact(sha, scenario, expected, actual);
    if Used(expected) == Used(actual) {
      UsedDeterminesAll(expected, actual);
    }
    if forall i | 0 <= i < |expected| :: expected[i].values == actual[i].values {
      assert expected == actual;
    }
  }

  // ---------------------------------------------------------------- unordered manifests

  function KeyFor(sha: Digest, scenario: Scenario, channel: string, m: Message): Key {
    KeyOf(RecordOf(sha, scenario, DEFAULT_ASSOCIATION, channel, 0, m))
  }

  /** What a dictionary holds for a channel; nothing when the channel is missing. */
  function Lookup(entries: seq<Entry>, channel: string): seq<Message> {
    if entries == [] then []
    else if entries[0].channel == channel then entries[0].values
    else Lookup(entries[1..], channel)
  }

  lemma KeysAreInjective(sha: Digest, scenario: Scenario, c1: string, m1: Message, c2: string, m2: Message)
    ensures KeyFor(sha, scenario, c1, m1) == KeyFor(sha, scenario, c2, m2) <==> c1 == c2 && m1 == m2
  {
    if Encode(m1.payload) == Encode(m2.payload) {
      EncodeIsInjective(m1.payload, m2.payload);
    }
  }

  lemma KeysAppend(a: seq<MessageRecord>, b: seq<MessageRecord>)
    ensures multiset(Keys(a + b)) == multiset(Keys(a)) + multiset(Keys(b))
  {
    assert Keys(a + b) == Keys(a) + Keys(b);
  }

  lemma {:induction false} CountInRecords(sha: Digest, scenario: Scenario, own: string, values: seq<Message>, channel: string, m: Message)
    ensures multiset(Keys(Records(sha, scenario, own, values, DEFAULT_ASSOCIATION)))[KeyFor(sha, scenario, channel, m)]
            == if own == channel then multiset(values)[m] else 0
  {
    var rs := Records(sha, scenario, own, values, DEFAULT_ASSOCIATION);
    if values == [] {
      assert rs == [];
    } else {
      var front, last := values[..|values| - 1], values[|values| - 1];
      CountInRecords(sha, scenario, own, front, channel, m);
      assert values == front + [last];
      assert rs == Records(sha, scenario, own, front, DEFAULT_ASSOCIATION) + [rs[|values| - 1]];
      KeysAppend(Records(sha, scenario, own, front, DEFAULT_ASSOCIATION), [rs[|values| - 1]]);
      assert Keys([rs[|values| - 1]]) == [KeyFor(sha, scenario, own, last)];
      KeysAreInjective(sha, scenario, own, last, channel, m);
    }
  }

  lemma {:induction false} CountInManifest(sha: Digest, scenario: Scenario, entries: seq<Entry>, channel: string, m: Message)
    requires IsDictionary(entries)
    ensures multiset(Keys(Manifest(sha, scenario, entries)))[KeyFor(sha, scenario, channel, m)]
            == multiset(Lookup(entries, channel))[m]
  {
    if entries != [] {
      var first := Records(sha, scenario, entries[0].channel, entries[0].values, DEFAULT_ASSOCIATION);
      KeysAppend(first, Manifest(sha, scenario, entries[1..]));
      CountInRecords(sha, scenario, entries[0].channel, entries[0].values, channel, m);
      CountInManifest(sha, scenario, entries[1..], channel, m);
      if entries[0].channel == channel {
        MissingChannel(entries[1..], channel);
      }
    }
  }

  lemma {:induction false} MissingChannel(entries: seq<Entry>, channel: string)
    requires forall e <- entries :: e.channel != channel
    ensures Lookup(entries, channel) == []
  {
    if entries != [] {
      MissingChannel(entries[1..], channel);
    }
  }

  lemma {:induction false} EveryKeyIsAMessage(sha: Digest, scenario: Scenario, entries: seq<Entry>)
    ensures forall r <- Manifest(sha, scenario, entries) ::
              exists channel, m :: KeyOf(r) == KeyFor(sha, scenario, channel, m)
  {
    if entries != [] {
      EveryKeyIsAMessage(sha, scenario, entries[1..]);
      var channel, values := entries[0].channel, entries[0].values;
      forall i | 0 <= i < |values|
        ensures KeyOf(Records(sha, scenario, channel, values, DEFAULT_ASSOCIATION)[i]) == KeyFor(sha, scenario, channel, values[i])
      {
      }
    }
  }

  /** Every channel carries the same messages the same number of times. */
  ghost predicate SameContents(expected: seq<Entry>, actual: seq<Entry>) {
    forall channel :: multiset(Lookup(expected, channel)) == multiset(Lookup(actual, channel))
  }

  lemma SameCount(sha: Digest, scenario: Scenario, expected: seq<Entry>, actual: seq<Entry>, k: Key)
    requires IsDictionary(expected) && IsDictionary(actual)
    requires SameContents(expected, actual)
    ensures multiset(Keys(Manifest(sha, scenario, expected)))[k] == multiset(Keys(Manifest(sha, scenario, actual)))[k]
  {
    EveryKeyIsAMessage(sha, scenario, expected);
    EveryKeyIsAMessage(sha, scenario, actual);
    if k in Keys(Manifest(sha, scenario, expected)) || k in Keys(Manifest(sha, scenario, actual)) {
      var channel, m :| k == KeyFor(sha, scenario, channel, m);
      CountInManifest(sha, scenario, expected, channel, m);
      CountInManifest(sha, scenario, actual, channel, m);
    }
  }

  lemma EqualKeysGiveSameContents(sha: Digest, scenario: Scenario, expected: seq<Entry>, actual: seq<Entry>)
    requires IsDictionary(expected) && IsDictionary(actual)
    requires multiset(Keys(Manifest(sha, scenario, expected))) == multiset(Keys(Manifest(sha, scenario, actual)))
    ensures SameContents(expected, actual)
  {
    forall channel
      ensures multiset(Lookup(expected, channel)) == multiset(Lookup(actual, channel))
    {
      forall m
        ensures multiset(Lookup(expected, channel))[m] == multiset(Lookup(actual, channel))[m]
      {
        CountInManifest(sha, scenario, expected, channel, m);
        CountInManifest(sha, scenario, actual, channel, m);
      }
    }
  }

  lemma SameContentsGiveEqualKeys(sha: Digest, scenario: Scenario, expected: seq<Entry>, actual: seq<Entry>)
    requires IsDictionary(expected) && IsDictionary(actual) && SameContents(expected, actual)
    ensures multiset(Keys(Manifest(sha, scenario, expected))) == multiset(Keys(Manifest(sha, scenario, actual)))
  {
    var sent, received := multiset(Keys(Manifest(sha, scenario, expected))), multiset(Keys(Manifest(sha, scenario, actual)));
    forall k
      ensures sent[k] == received[k]
    {
      SameCount(sha, scenario, expected, actual, k);
    }
    assert sent == received;
  }

  /** The unordered comparison passes exactly when every channel received the same messages
      the same number of times. */
  lemma UnorderedManifestsExact(sha: Digest, scenario: Scenario, expected: seq<Entry>, actual: seq<Entry>)
    requires IsDictionary(expected) && IsDictionary(actual) && !scenario.ordered
    ensures ScenarioFailures(sha, scenario, expected, actual) == [] <==> SameContents(expected, actual)
  {
    if multiset(Keys(Manifest(sha, scenario, expected))) == multiset(Keys(Manifest(sha, scenario, actual))) {
      EqualKeysGiveSameContents(sha, scenario, expected, actual);
    }
    if SameContents(expected, actual) {
      SameContentsGiveEqualKeys(sha, scenario, expected, actual);
    }
  }

  function Surplus(a: nat, b: nat): nat {
    if a > b then a - b else 0
  }

  /** What is reported is the comparison of what was expected with what was received: in an
      ordered scenario the whole ordered report; in an unordered one, for every message on
      every channel, how many are missing and how many too many were received. */
  lemma ScenarioReport(sha: Digest, scenario: Scenario, expected: seq<Entry>, actual: seq<Entry>)
    requires IsDictionary(expected) && IsDictionary(actual)
    ensures var failures := ScenarioFailures(sha, scenario, expected, actual);
            if scenario.ordered then IsOrderedReport(Manifest(sha, scenario, expected), Manifest(sha, scenario, actual), failures)
            else failures == [] || (|failures| == 1 && failures[0].ManifestDiffers?
                                    && forall channel, m :: IsShortBy(sha, scenario, expected, actual, failures[0], channel, m))
  {
    var failures := ScenarioFailures(sha, scenario, expected, actual);
    OrderedReport(Manifest(sha, scenario, expected), Manifest(sha, scenario, actual));
    if !scenario.ordered && failures != [] {
      forall channel, m
        ensures IsShortBy(sha, scenario, expected, actual, failures[0], channel, m)
      {
        CountInManifest(sha, scenario, expected, channel, m);
        CountInManifest(sha, scenario, actual, channel, m);
      }
    }
  }

  ghost predicate IsShortBy(sha: Digest, scenario: Scenario, expected: seq<Entry>, actual: seq<Entry>, f: Failure, channel: string, m: Message)
    requires f.ManifestDiffers?
  {
    var wanted, got := multiset(Lookup(expected, channel))[m], multiset(Lookup(actual, channel))[m];
    && f.missing[KeyFor(sha, scenario, channel, m)] == Surplus(wanted, got)
    && f.unexpected[KeyFor(sha, scenario, channel, m)] == Surplus(got, wanted)
  }

  // ---------------------------------------------------------------- calibration of a scenario

  /** Calibrating with a channel's records returns exactly when there are two of them and the
      first digest is not all zeros: their numbers tell them apart, so of the two violations
      that can go unnoticed a swap never does.  What it returns has one failure for each of
      three violations and two for the swap. */
  lemma RecordsCalibrate(sha: Digest, scenario: Scenario, channel: string, values: seq<Message>, association: string)
    ensures var rs := Records(sha, scenario, channel, values, association);
            var outcome := Calibration.Outcome(rs);
            && (|values| < 2 ==> outcome == Calibration.Raised(Calibration.TooFewRecords))
            && (|values| >= 2 && sha(values[0].payload) == Calibration.ZERO_DIGEST ==>
                  outcome == Calibration.Raised(Calibration.Escaped(Calibration.Corrupt)))
            && (|values| >= 2 && sha(values[0].payload) != Calibration.ZERO_DIGEST ==>
                  outcome.Returned? && Calibration.Noticed(rs, outcome.value))
  {
    var rs := Records(sha, scenario, channel, values, association);
    if |values| >= 2 {
      assert rs[0].sequence == 1 && rs[1].sequence == 2;
      if rs[0].sha256 != Calibration.ZERO_DIGEST {
        Calibration.CalibrationReport(rs);
      }
    }
  }

  // ---------------------------------------------------------------- reading events

  /** A peer event; only messages carry the three fields of the body. */
  datatype Event = Other(name: string) | MessageEvent(channel: string, messageType: string, payloadHex: string)

  /** The messages on one channel, or on all; `None` stands for the error that malformed
      hexadecimal text raises. */
  function ReceivedValues(events: seq<Event>, channel: Option<string>): Option<seq<Message>> {
    if events == [] then Some([])
    else
      var rest := ReceivedValues(events[1..], channel);
      match events[0]
      case Other(_) => rest
      case MessageEvent(l, t, hex) =>
        if channel.Some? && channel.value != l then rest
        else match (Decode(hex), rest)
          case (Some(payload), Some(values)) => Some([Message(t, payload)] + values)
          case _ => None
  }

  /** The messages that are asked for: those on the channel, or all when none is named. */
  function IsWanted(channel: Option<string>): Event -> bool {
    (e: Event) => e.MessageEvent? && (channel == None || channel == Some(e.channel))
  }

  /** One value for each wanted event, in their order, with its type and its bytes. */
  ghost predicate ReadsAs(wanted: seq<Event>, values: seq<Message>) {
    && |values| == |wanted|
    && forall k | 0 <= k < |wanted| ::
         wanted[k].MessageEvent? && values[k].messageType == wanted[k].messageType
         && Decode(wanted[k].payloadHex) == Some(values[k].payload)
  }

  /** Reading fails exactly when the text of some wanted event is malformed. */
  ghost predicate ReadsOrFails(wanted: seq<Event>, read: Option<seq<Message>>) {
    if read.Some? then ReadsAs(wanted, read.value)
    else exists e <- wanted :: e.MessageEvent? && Decode(e.payloadHex).None?
  }

  /** One more event in front, as one step of reading. */
  function ReadFirst(e: Event, rest: Option<seq<Message>>): Option<seq<Message>>
    requires e.MessageEvent?
  {
    match (Decode(e.payloadHex), rest)
    case (Some(payload), Some(values)) => Some([Message(e.messageType, payload)] + values)
    case _ => None
  }

  lemma WantedFirst(e: Event, wanted: seq<Event>, rest: Option<seq<Message>>)
    requires e.MessageEvent? && ReadsOrFails(wanted, rest)
    ensures ReadsOrFails([e] + wanted, ReadFirst(e, rest))
  {
    if rest.None? {
      var bad :| bad in wanted && bad.MessageEvent? && Decode(bad.payloadHex).None?;
      assert bad in [e] + wanted;
    } else if Decode(e.payloadHex).None? {
      assert e in [e] + wanted;
    }
  }

  lemma {:induction false} ReceivedValuesAreWanted(events: seq<Event>, channel: Option<string>) returns (wanted: seq<Event>)
    ensures Selects(IsWanted(channel), events, wanted) && ReadsOrFails(wanted, ReceivedValues(events, channel))
  {
    if events == [] {
      wanted := [];
      SelectsNothing(IsWanted(channel));
    } else {
      wanted := ReceivedValuesAreWanted(events[1..], channel);
      SelectsFirst(IsWanted(channel), events[0], events[1..], wanted);
      assert events == [events[0]] + events[1..];
      if IsWanted(channel)(events[0]) {
        WantedFirst(events[0], wanted, ReceivedValues(events[1..], channel));
        wanted := [events[0]] + wanted;
      } else {
        assert [] + wanted == wanted;
      }
    }
  }

  /** What a peer reports when messages arrive interleaved on several channels. */
  function Reported(arrivals: seq<(string, Message)>): seq<Event> {
    if arrivals == [] then []
    else [MessageEvent(arrivals[0].0, arrivals[0].1.messageType, Encode(arrivals[0].1.payload))] + Reported(arrivals[1..])
  }

  function Arrived(arrivals: seq<(string, Message)>, channel: string): seq<Message> {
    if arrivals == [] then []
    else (if arrivals[0].0 == channel then [arrivals[0].1] else []) + Arrived(arrivals[1..], channel)
  }

  /** Reading a channel's events back gives exactly the messages that arrived on it. */
  lemma {:induction false} ReceivedValuesExact(arrivals: seq<(string, Message)>, channel: string)
    ensures ReceivedValues(Reported(arrivals), Some(channel)) == Some(Arrived(arrivals, channel))
  {
    if arrivals != [] {
      var events := Reported(arrivals);
      assert events[0] == MessageEvent(arrivals[0].0, arrivals[0].1.messageType, Encode(arrivals[0].1.payload));
      assert events[1..] == Reported(arrivals[1..]);
      assert arrivals[0].1 == Message(arrivals[0].1.messageType, arrivals[0].1.payload);
      RoundTrip(arrivals[0].1.payload);
      ReceivedValuesExact(arrivals[1..], channel);
      assert arrivals[0].0 != channel ==> Arrived(arrivals, channel) == Arrived(arrivals[1..], channel);
    }
  }

  // ---------------------------------------------------------------- parallel associations

  /** Each peer's messages start with its index in two bytes; a larger index is an error. */
  function ParallelPayloads(peer: nat, values: seq<Message>): Option<seq<Message>> {
    if peer >= 65536 then None
    else
      var prefix: Bytes := [(peer / 256) as byte, (peer % 256) as byte];
      Some(seq(|values|, i requires 0 <= i < |values| => Message(values[i].messageType, prefix + values[i].payload)))
  }

  /** A message keeps its type and its bytes, after the index of the peer with the high byte
      first; only an index that does not fit two bytes is an error. */
  lemma ParallelPayloadsExactly(peer: nat, values: seq<Message>)
    ensures ParallelPayloads(peer, values).None? <==> peer >= 65536
    ensures peer < 65536 ==>
              var ms := ParallelPayloads(peer, values).value;
              |ms| == |values| && forall i | 0 <= i < |ms| ::
                && ms[i].messageType == values[i].messageType && |ms[i].payload| == 2 + |values[i].payload|
                && 256 * ms[i].payload[0] as int + ms[i].payload[1] as int == peer && ms[i].payload[2..] == values[i].payload
  {
  }

  /** No message of one association can pass for a message of another, whatever is sent. */
  lemma NoCrossTalk(p: nat, q: nat, v: seq<Message>, w: seq<Message>)
    requires p < 65536 && q < 65536 && p != q
    ensures forall m <- ParallelPayloads(p, v).value :: m !in ParallelPayloads(q, w).value
  {
    var a, b := ParallelPayloads(p, v).value, ParallelPayloads(q, w).value;
    forall i, j | 0 <= i < |a| && 0 <= j < |b|
      ensures a[i] != b[j]
    {
      assert a[i].payload[0] as int * 256 + a[i].payload[1] as int == p;
      assert b[j].payload[0] as int * 256 + b[j].payload[1] as int == q;
    }
  }

  /** And within an association nothing is confused either. */
  lemma ParallelPayloadsAreInjective(p: nat, v: seq<Message>, w: seq<Message>)
    requires p < 65536 && ParallelPayloads(p, v) == ParallelPayloads(p, w)
    ensures v == w
  {
    var a, b := ParallelPayloads(p, v).value, ParallelPayloads(p, w).value;
    assert |v| == |a| == |b| == |w|;
    forall i | 0 <= i < |v|
      ensures v[i] == w[i]
    {
      assert a[i] == b[i] && v[i].payload == a[i].payload[2..] && w[i].payload == b[i].payload[2..];
    }
  }
}
