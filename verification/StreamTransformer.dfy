/** What the impairer does to a stream of datagrams, said without its look-ahead, its queue
    or its counters: filter, swap neighbours, duplicate.  `Refinement` proves that an
    error-free run of the machine delivers exactly this. */
module StreamTransformer {
  import opened Wrappers
  import opened Impairment

  /** A packet together with the number it was given on arrival. */
  datatype Numbered = Numbered(packet: Datagram, sequence: uint64)

  /** A failed read uses up no number. */
  function NumberAfter(input: Input, last: uint64): uint64 {
    if input.Arrival? then Add64(last, 1) else last
  }

  /** What arrives, as read into a buffer of `length` bytes, with its numbers, whether or not
      it passes the filters. */
  function Arrivals(length: nat, inputs: seq<Input>, last: uint64): seq<Numbered> {
    if inputs == [] then []
    else ArrivalOf(length, inputs[0], last) + Arrivals(length, inputs[1..], NumberAfter(inputs[0], last))
  }

  function ArrivalOf(length: nat, input: Input, last: uint64): seq<Numbered> {
    if input.Failure? then [] else [Numbered(Truncate(input.datagram, length), Add64(last, 1))]
  }

  /** The packet that one input adds to the survivors, if any. */
  function Surviving(cfg: Config, length: nat, input: Input, last: uint64): seq<Numbered> {
    if input.Failure? then [] else
      var sequence, packet := Add64(last, 1), Truncate(input.datagram, length);
      if Screen(cfg, sequence, |packet.payload|).Passed? then [Numbered(packet, sequence)] else []
  }

  /** The packets that pass both filters; `last` is the number used most recently. */
  function Survivors(cfg: Config, length: nat, inputs: seq<Input>, last: uint64): seq<Numbered> {
    if inputs == [] then []
    else Surviving(cfg, length, inputs[0], last) + Survivors(cfg, length, inputs[1..], NumberAfter(inputs[0], last))
  }

  /** Greedy swapping of neighbours: a selected packet changes places with its successor,
      and the successor is not considered again. */
  function Swap(cfg: Config, s: seq<Numbered>): (t: seq<Numbered>)
    ensures |t| == |s|
  {
    if |s| >= 2 && Every(cfg.reorderEvery, s[0].sequence) then [s[1], s[0]] + Swap(cfg, s[2..])
    else if s == [] then []
    else [s[0]] + Swap(cfg, s[1..])
  }

  function Twice(cfg: Config, p: Numbered): bool {
    Every(cfg.duplicateEvery, p.sequence)
  }

  function Duplicate(cfg: Config, s: seq<Numbered>): seq<Datagram> {
    if s == [] then [] else Copies(s[0].packet, Twice(cfg, s[0])) + Duplicate(cfg, s[1..])
  }

  function Transform(cfg: Config, length: nat, inputs: seq<Input>, last: uint64): seq<Datagram> {
    Duplicate(cfg, Swap(cfg, Survivors(cfg, length, inputs, last)))
  }

  // ---------------------------------------------------------------- runs

  predicate AllDelivered(outcomes: seq<Outcome>) {
    forall i | 0 <= i < |outcomes| :: outcomes[i].Delivered?
  }

  function Packets(outcomes: seq<Outcome>): seq<Datagram>
  {
    if outcomes == [] then []
    else (match outcomes[0] case Delivered(d) => [d] case Failed(_) => []) + Packets(outcomes[1..])
  }

  predicate Fits(length: nat, ready: seq<Datagram>) {
    forall d <- ready :: |d.payload| <= length
  }

  predicate SameLength(length: nat, lengths: seq<nat>) {
    forall i | 0 <= i < |lengths| :: lengths[i] == length
  }

  /** The inputs that lie between an earlier and a later state of one run. */
  function Consumed(m: Machine, m': Machine): seq<Input>
    requires |m'.pending| <= |m.pending|
  {
    m.pending[..|m.pending| - |m'.pending|]
  }

  // ---------------------------------------------------------------- places in a run

  /** The number used last after some inputs. */
  function LastNumber(inputs: seq<Input>, last: uint64): uint64 {
    if inputs == [] then last else LastNumber(inputs[1..], NumberAfter(inputs[0], last))
  }

  lemma {:induction false} LastNumberAppend(a: seq<Input>, b: seq<Input>, last: uint64)
    ensures LastNumber(a + b, last) == LastNumber(b, LastNumber(a, last))
  {
    if a == [] {
      assert a + b == b;
    } else {
      assert (a + b)[1..] == a[1..] + b;
      LastNumberAppend(a[1..], b, NumberAfter(a[0], last));
    }
  }

  /** Later in a run than `m`: a prefix of the network has been read and numbered. */
  ghost predicate Reaches(m: Machine, m': Machine) {
    && |m'.pending| <= |m.pending|
    && m'.pending == m.pending[|m.pending| - |m'.pending|..]
    && m'.sequence == LastNumber(Consumed(m, m'), m.sequence)
  }

  lemma ConsumedThen(m: Machine, m1: Machine, m2: Machine)
    requires |m2.pending| <= |m1.pending| <= |m.pending|
    requires m1.pending == m.pending[|m.pending| - |m1.pending|..]
    ensures Consumed(m, m2) == Consumed(m, m1) + Consumed(m1, m2)
  {
  }

  lemma ReachesThen(m: Machine, m1: Machine, m2: Machine)
    requires Reaches(m, m1) && Reaches(m1, m2)
    ensures Reaches(m, m2) && Consumed(m, m2) == Consumed(m, m1) + Consumed(m1, m2)
  {
    ConsumedThen(m, m1, m2);
    LastNumberAppend(Consumed(m, m1), Consumed(m1, m2), m.sequence);
  }

  lemma ReachesSame(m: Machine, m': Machine)
    requires m'.pending == m.pending && m'.sequence == m.sequence
    ensures Reaches(m, m') && Consumed(m, m') == []
  {
  }

  /** Reading one input, whatever else that changes. */
  lemma ReachesNext(m: Machine, m': Machine)
    requires m.pending != [] && m'.pending == m.pending[1..] && m'.sequence == NumberAfter(m.pending[0], m.sequence)
    ensures Reaches(m, m') && Consumed(m, m') == [m.pending[0]]
  {
    assert [m.pending[0]][1..] == [];
  }

  // ---------------------------------------------------------------- refinement

  lemma {:induction false} SurvivorsAppend(cfg: Config, length: nat, a: seq<Input>, b: seq<Input>, last: uint64)
    ensures Survivors(cfg, length, a + b, last)
            == Survivors(cfg, length, a, last) + Survivors(cfg, length, b, LastNumber(a, last))
  {
    if a == [] {
      assert a + b == b;
      assert [] + Survivors(cfg, length, b, last) == Survivors(cfg, length, b, last);
    } else {
      assert (a + b)[1..] == a[1..] + b;
      SurvivorsAppend(cfg, length, a[1..], b, NumberAfter(a[0], last));
      Associate(Surviving(cfg, length, a[0], last), Survivors(cfg, length, a[1..], NumberAfter(a[0], last)),
                Survivors(cfg, length, b, LastNumber(a, last)));
    }
  }

  /** What the machine has read between the two states added exactly `packets` to the survivors. */
  ghost predicate Yields(cfg: Config, length: nat, m: Machine, m': Machine, packets: seq<Numbered>) {
    Reaches(m, m') && Survivors(cfg, length, Consumed(m, m'), m.sequence) == packets
  }

  lemma YieldsThen(cfg: Config, length: nat, m: Machine, m1: Machine, m2: Machine,
                   first: seq<Numbered>, second: seq<Numbered>)
    requires Yields(cfg, length, m, m1, first) && Yields(cfg, length, m1, m2, second)
    ensures Yields(cfg, length, m, m2, first + second)
  {
    ReachesThen(m, m1, m2);
    SurvivorsAppend(cfg, length, Consumed(m, m1), Consumed(m1, m2), m.sequence);
  }

  lemma YieldsNothing(cfg: Config, length: nat, m: Machine, m': Machine)
    requires m'.pending == m.pending && m'.sequence == m.sequence
    ensures Yields(cfg, length, m, m', [])
  {
    ReachesSame(m, m');
  }

  lemma YieldsNext(cfg: Config, length: nat, m: Machine, m': Machine)
    requires m.pending != [] && m'.pending == m.pending[1..] && m'.sequence == NumberAfter(m.pending[0], m.sequence)
    ensures Yields(cfg, length, m, m', Surviving(cfg, length, m.pending[0], m.sequence))
  {
    ReachesNext(m, m');
    assert [m.pending[0]][1..] == [];
    assert Surviving(cfg, length, m.pending[0], m.sequence) + [] == Surviving(cfg, length, m.pending[0], m.sequence);
  }

  function Found(f: Fetched): seq<Numbered> {
    if f.Got? then [Numbered(f.packet, f.sequence)] else []
  }

  lemma FetchUnfolds(cfg: Config, length: nat, m: Machine)
    requires m.pending != [] && m.pending[0].Arrival?
    ensures var first, found := Accept(cfg, length, m), Surviving(cfg, length, m.pending[0], m.sequence);
            && first.pending == m.pending[1..] && first.sequence == NumberAfter(m.pending[0], m.sequence)
            && (found == [] ==> Fetch(cfg, length, m) == Fetch(cfg, length, first))
            && (found != [] ==> Fetch(cfg, length, m).0 == first && Found(Fetch(cfg, length, m).1) == found)
  {
  }

  lemma {:induction false} FetchYields(cfg: Config, length: nat, m: Machine)
    ensures Yields(cfg, length, m, Fetch(cfg, length, m).0, Found(Fetch(cfg, length, m).1))
    decreases |m.pending|
  {
    var (m', f) := Fetch(cfg, length, m);
    if m.pending == [] {
      YieldsNothing(cfg, length, m, m');
    } else if m.pending[0].Failure? {
      YieldsNext(cfg, length, m, m');
    } else {
      var first := Accept(cfg, length, m);
      FetchUnfolds(cfg, length, m);
      YieldsNext(cfg, length, m, first);
      if Surviving(cfg, length, m.pending[0], m.sequence) == [] {
        FetchYields(cfg, length, first);
        YieldsThen(cfg, length, m, first, m', [], Found(f));
        assert [] + Found(f) == Found(f);
      }
    }
  }

  /** The state after the second fetch of a call whose first one gave `current`. */
  function AfterLookAhead(cfg: Config, length: nat, m1: Machine, current: Numbered): (Machine, Fetched) {
    Fetch(cfg, length, NoteDuplicate(cfg, m1, current.packet, current.sequence))
  }

  /** The packets a call takes from the network, by the branch it takes. */
  function Taken(cfg: Config, length: nat, m: Machine): seq<Numbered> {
    if m.ready != [] then [] else
      var (m1, first) := Fetch(cfg, length, m);
      if first.Got? && Every(cfg.reorderEvery, first.sequence) then
        Found(first) + Found(AfterLookAhead(cfg, length, m1, Found(first)[0]).1)
      else Found(first)
  }

  lemma LookAheadYields(cfg: Config, length: nat, m: Machine)
    requires Fetch(cfg, length, m).1.Got?
    ensures var (m1, first) := Fetch(cfg, length, m);
            var (m2, second) := AfterLookAhead(cfg, length, m1, Found(first)[0]);
            Yields(cfg, length, m, m2, Found(first) + Found(second))
  {
    var (m1, first) := Fetch(cfg, length, m);
    var noted := NoteDuplicate(cfg, m1, first.packet, first.sequence);
    var (m2, second) := Fetch(cfg, length, noted);
    FetchYields(cfg, length, m);
    FetchYields(cfg, length, noted);
    SameStart(cfg, length, noted, m1, m2, Found(second));
    YieldsThen(cfg, length, m, m1, m2, Found(first), Found(second));
  }

  /** Only the network and the sequence number matter to `Yields`. */
  lemma SameStart(cfg: Config, length: nat, m: Machine, n: Machine, m': Machine, packets: seq<Numbered>)
    requires Yields(cfg, length, m, m', packets) && n.pending == m.pending && n.sequence == m.sequence
    ensures Yields(cfg, length, n, m', packets)
  {
  }

  lemma SameEnd(cfg: Config, length: nat, m: Machine, m': Machine, n': Machine, packets: seq<Numbered>)
    requires Yields(cfg, length, m, m', packets) && n'.pending == m'.pending && n'.sequence == m'.sequence
    ensures Yields(cfg, length, m, n', packets)
  {
  }

  lemma ServeYields(cfg: Config, length: nat, m: Machine)
    ensures Yields(cfg, length, m, Serve(cfg, length, m).0, Taken(cfg, length, m))
  {
    var m' := Serve(cfg, length, m).0;
    if m.ready != [] {
      YieldsNothing(cfg, length, m, m');
    } else {
      var (m1, first) := Fetch(cfg, length, m);
      if first.Got? && Every(cfg.reorderEvery, first.sequence) {
        LookAheadYields(cfg, length, m);
        SameEnd(cfg, length, m, AfterLookAhead(cfg, length, m1, Found(first)[0]).0, m', Taken(cfg, length, m));
      } else {
        FetchYields(cfg, length, m);
        SameEnd(cfg, length, m, m1, m', Found(first));
      }
    }
  }

  lemma {:induction false} RunReaches(cfg: Config, lengths: seq<nat>, m: Machine)
    ensures Reaches(m, Run(cfg, lengths, m).0)
  {
    if lengths == [] {
      ReachesSame(m, m);
    } else {
      var m1 := Serve(cfg, lengths[0], m).0;
      ServeYields(cfg, lengths[0], m);
      RunReaches(cfg, lengths[1..], m1);
      ReachesThen(m, m1, Run(cfg, lengths[1..], m1).0);
    }
  }

  /** The survivors of what a run has read. */
  ghost function SurvivorsOf(cfg: Config, length: nat, lengths: seq<nat>, m: Machine): seq<Numbered> {
    RunReaches(cfg, lengths, m);
    Survivors(cfg, length, Consumed(m, Run(cfg, lengths, m).0), m.sequence)
  }

  /** ... are those of its first call followed by those of the rest. */
  lemma SurvivorsOfRun(cfg: Config, length: nat, lengths: seq<nat>, m: Machine)
    ensures lengths == [] ==> SurvivorsOf(cfg, length, lengths, m) == []
    ensures lengths != [] && lengths[0] == length ==>
              SurvivorsOf(cfg, length, lengths, m)
              == Taken(cfg, length, m) + SurvivorsOf(cfg, length, lengths[1..], Serve(cfg, length, m).0)
  {
    if lengths == [] {
      ReachesSame(m, m);
    } else if lengths[0] == length {
      var m1 := Serve(cfg, length, m).0;
      var m' := Run(cfg, lengths[1..], m1).0;
      ServeYields(cfg, length, m);
      RunReaches(cfg, lengths[1..], m1);
      YieldsThen(cfg, length, m, m1, m', Taken(cfg, length, m), Survivors(cfg, length, Consumed(m1, m'), m1.sequence));
    }
  }

  /** The delivered packet followed by the queue, in the reordering branch. */
  lemma LookAheadOutput(cfg: Config, length: nat, m1: Machine, current: Numbered)
    requires |current.packet.payload| <= length
    ensures var copies := Copies(current.packet, Twice(cfg, current));
            var (m', o) := LookAhead(cfg, length, NoteDuplicate(cfg, m1, current.packet, current.sequence), current.packet, copies);
            var second := AfterLookAhead(cfg, length, m1, current).1;
            && o.Delivered? == second.Got?
            && (o.Delivered? ==>
                  && Fits(length, m'.ready)
                  && [o.packet] + m'.ready == Copies(second.packet, Twice(cfg, Found(second)[0])) + copies)
  {
  }

  /** A queued packet is delivered whole, and nothing is taken. */
  lemma QueueTransforms(cfg: Config, length: nat, m: Machine, s: seq<Numbered>)
    requires Fits(length, m.ready) && m.ready != []
    ensures var (m', o) := Serve(cfg, length, m);
            && o.Delivered? && Fits(length, m'.ready) && [o.packet] + m'.ready == m.ready
            && Taken(cfg, length, m) + s == s
  {
    assert m.ready[0] in m.ready;
  }

  /** What a successful call delivers and queues is what swapping and duplicating make of
      the packets it took, whatever follows them. */
  lemma ServeTransforms(cfg: Config, length: nat, m: Machine, s: seq<Numbered>)
    requires Fits(length, m.ready) && Serve(cfg, length, m).1.Delivered?
    ensures var (m', o) := Serve(cfg, length, m);
            && Fits(length, m'.ready)
            && [o.packet] + m'.ready + Duplicate(cfg, Swap(cfg, s))
               == m.ready + Duplicate(cfg, Swap(cfg, Taken(cfg, length, m) + s))
  {
    if m.ready != [] {
      QueueTransforms(cfg, length, m, s);
    } else {
      var (m1, first) := Fetch(cfg, length, m);
      var current := Found(first)[0];
      if Every(cfg.reorderEvery, first.sequence) {
        LookAheadOutput(cfg, length, m1, current);
        var second := AfterLookAhead(cfg, length, m1, current).1;
        PairTransforms(cfg, current, Found(second)[0], s);
      } else {
        SingleTransforms(cfg, current, s);
      }
    }
  }

  lemma DuplicateCons(cfg: Config, p: Numbered, s: seq<Numbered>)
    ensures Duplicate(cfg, [p] + s) == Copies(p.packet, Twice(cfg, p)) + Duplicate(cfg, s)
  {
    assert ([p] + s)[1..] == s;
  }

  lemma SingleTransforms(cfg: Config, current: Numbered, s: seq<Numbered>)
    requires !Every(cfg.reorderEvery, current.sequence)
    ensures Duplicate(cfg, Swap(cfg, [current] + s)) == Copies(current.packet, Twice(cfg, current)) + Duplicate(cfg, Swap(cfg, s))
  {
    assert ([current] + s)[1..] == s;
    DuplicateCons(cfg, current, Swap(cfg, s));
  }

  lemma PairTransforms(cfg: Config, current: Numbered, next: Numbered, s: seq<Numbered>)
    requires Every(cfg.reorderEvery, current.sequence)
    ensures Duplicate(cfg, Swap(cfg, [current] + [next] + s))
            == Copies(next.packet, Twice(cfg, next)) + Copies(current.packet, Twice(cfg, current)) + Duplicate(cfg, Swap(cfg, s))
  {
    assert ([current] + [next] + s)[2..] == s;
    assert [next, current] + Swap(cfg, s) == [next] + ([current] + Swap(cfg, s));
    DuplicateCons(cfg, next, [current] + Swap(cfg, s));
    DuplicateCons(cfg, current, Swap(cfg, s));
  }

  /** Refinement.  Whatever the network produced and however often `ReadFrom` was called,
      as long as no call failed, what was delivered followed by what is queued is the
      transformed prefix of the network that was read. */
  lemma Refinement(cfg: Config, length: nat, lengths: seq<nat>, m: Machine)
    requires SameLength(length, lengths) && Fits(length, m.ready)
    requires AllDelivered(Run(cfg, lengths, m).1)
    ensures var (m', outcomes) := Run(cfg, lengths, m);
            && |m'.pending| <= |m.pending|
            && Packets(outcomes) + m'.ready == m.ready + Transform(cfg, length, Consumed(m, m'), m.sequence)
  {
    RunReaches(cfg, lengths, m);
    RunTransforms(cfg, length, lengths, m);
  }

  lemma {:induction false} RunTransforms(cfg: Config, length: nat, lengths: seq<nat>, m: Machine)
    requires SameLength(length, lengths) && Fits(length, m.ready)
    requires AllDelivered(Run(cfg, lengths, m).1)
    ensures var (m', outcomes) := Run(cfg, lengths, m);
            Packets(outcomes) + m'.ready == m.ready + Duplicate(cfg, Swap(cfg, SurvivorsOf(cfg, length, lengths, m)))
  {
    SurvivorsOfRun(cfg, length, lengths, m);
    if lengths != [] {
      var (m1, o) := Serve(cfg, length, m);
      var (m', tail) := Run(cfg, lengths[1..], m1);
      var rest := SurvivorsOf(cfg, length, lengths[1..], m1);
      FirstDelivered(o, tail);
      ServeTransforms(cfg, length, m, rest);
      RunTransforms(cfg, length, lengths[1..], m1);
      Regroup(o.packet, Packets(tail), m'.ready, m1.ready, Duplicate(cfg, Swap(cfg, rest)));
    }
  }

  lemma FirstDelivered(o: Outcome, tail: seq<Outcome>)
    requires AllDelivered([o] + tail)
    ensures o.Delivered? && AllDelivered(tail) && Packets([o] + tail) == [o.packet] + Packets(tail)
  {
    assert ([o] + tail)[0] == o && ([o] + tail)[1..] == tail;
    assert forall i | 0 <= i < |tail| :: tail[i] == ([o] + tail)[i + 1];
  }

  lemma Regroup(d: Datagram, delivered: seq<Datagram>, left: seq<Datagram>, ready: seq<Datagram>, future: seq<Datagram>)
    requires delivered + left == ready + future
    ensures [d] + delivered + left == [d] + ready + future
  {
    assert [d] + delivered + left == [d] + (delivered + left);
    assert [d] + ready + future == [d] + (ready + future);
  }
}
