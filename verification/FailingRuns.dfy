/** What the impairer does to a stream in which reads fail, said without its look-ahead, its
    queue or its counters.  `FailingRefinement` proves that every run, whichever reads fail,
    delivers exactly this, loses exactly this and counts exactly these swaps. */
module FailingRuns {
  import opened Wrappers
  import opened Impairment
  import opened StreamTransformer
  import opened ImpairmentLaws
  import opened Counters

  // ---------------------------------------------------------------- the transformer

  function Present(s: seq<Numbered>): (stream: seq<Option<Numbered>>)
    ensures |stream| == |s| && forall i | 0 <= i < |s| :: stream[i] == Some(s[i])
  {
    seq(|s|, i requires 0 <= i < |s| => Some(s[i]))
  }

  /** What one input is to the machine: a packet that passes both filters, a failed read, or nothing. */
  function ReadOf(cfg: Config, length: nat, input: Input, last: uint64): seq<Option<Numbered>> {
    if input.Failure? then [None] else Present(Surviving(cfg, length, input, last))
  }

  function Reads(cfg: Config, length: nat, inputs: seq<Input>, last: uint64): seq<Option<Numbered>> {
    if inputs == [] then []
    else ReadOf(cfg, length, inputs[0], last) + Reads(cfg, length, inputs[1..], NumberAfter(inputs[0], last))
  }

  /** The packets that come out in order, the pairs that are exchanged on the way, and the
      packets that are lost. */
  datatype Played = Played(out: seq<Numbered>, pairs: seq<(Numbered, Numbered)>, lost: seq<Numbered>)

  function Then(a: Played, b: Played): Played {
    Played(a.out + b.out, a.pairs + b.pairs, a.lost + b.lost)
  }

  const NOTHING := Played([], [], [])

  predicate IsSelected(cfg: Config, read: Option<Numbered>) {
    read.Some? && Every(cfg.reorderEvery, read.value.sequence)
  }

  /** One or two stream: a selected packet changes places with the packet after it, and is lost
      when there is a failed read or nothing after it. */
  function Turn(cfg: Config, taken: seq<Option<Numbered>>): Played {
    if taken == [] || taken[0].None? then NOTHING
    else if !IsSelected(cfg, taken[0]) then Played([taken[0].value], [], [])
    else if |taken| >= 2 && taken[1].Some? then
      Played([taken[1].value, taken[0].value], [(taken[0].value, taken[1].value)], [])
    else Played([], [], [taken[0].value])
  }

  /** How many reads belong together at the front of a stream. */
  function TurnLength(cfg: Config, stream: seq<Option<Numbered>>): (n: nat)
    requires stream != []
    ensures 1 <= n <= |stream|
  {
    if IsSelected(cfg, stream[0]) && |stream| >= 2 then 2 else 1
  }

  function Play(cfg: Config, stream: seq<Option<Numbered>>): Played {
    if stream == [] then NOTHING
    else
      var n := TurnLength(cfg, stream);
      Then(Turn(cfg, stream[..n]), Play(cfg, stream[n..]))
  }

  /** Whether greedy pairing leaves the last packet selected and without a partner. */
  predicate EndsAlone(cfg: Config, s: seq<Numbered>) {
    if s == [] then false
    else if !Every(cfg.reorderEvery, s[0].sequence) then EndsAlone(cfg, s[1..])
    else |s| == 1 || EndsAlone(cfg, s[2..])
  }

  // ---------------------------------------------------------------- what calls read

  lemma {:induction false} ReadsAppend(cfg: Config, length: nat, a: seq<Input>, b: seq<Input>, last: uint64)
    ensures Reads(cfg, length, a + b, last) == Reads(cfg, length, a, last) + Reads(cfg, length, b, LastNumber(a, last))
  {
    if a == [] {
      assert a + b == b;
      assert [] + Reads(cfg, length, b, last) == Reads(cfg, length, b, last);
    } else {
      assert (a + b)[1..] == a[1..] + b;
      ReadsAppend(cfg, length, a[1..], b, NumberAfter(a[0], last));
      Associate(ReadOf(cfg, length, a[0], last), Reads(cfg, length, a[1..], NumberAfter(a[0], last)),
                Reads(cfg, length, b, LastNumber(a, last)));
    }
  }

  /** Between the two states the machine has read exactly `taken`. */
  ghost predicate Takes(cfg: Config, length: nat, m: Machine, m': Machine, taken: seq<Option<Numbered>>) {
    Reaches(m, m') && Reads(cfg, length, Consumed(m, m'), m.sequence) == taken
  }

  lemma TakesThen(cfg: Config, length: nat, m: Machine, m1: Machine, m2: Machine,
                  first: seq<Option<Numbered>>, second: seq<Option<Numbered>>)
    requires Takes(cfg, length, m, m1, first) && Takes(cfg, length, m1, m2, second)
    ensures Takes(cfg, length, m, m2, first + second)
  {
    ReachesThen(m, m1, m2);
    ReadsAppend(cfg, length, Consumed(m, m1), Consumed(m1, m2), m.sequence);
  }

  lemma TakesNothing(cfg: Config, length: nat, m: Machine, m': Machine)
    requires m'.pending == m.pending && m'.sequence == m.sequence
    ensures Takes(cfg, length, m, m', [])
  {
    ReachesSame(m, m');
  }

  lemma TakesNext(cfg: Config, length: nat, m: Machine, m': Machine)
    requires m.pending != [] && m'.pending == m.pending[1..] && m'.sequence == NumberAfter(m.pending[0], m.sequence)
    ensures Takes(cfg, length, m, m', ReadOf(cfg, length, m.pending[0], m.sequence))
  {
    ReachesNext(m, m');
    assert [m.pending[0]][1..] == [];
    assert ReadOf(cfg, length, m.pending[0], m.sequence) + [] == ReadOf(cfg, length, m.pending[0], m.sequence);
  }

  /** Only the network and the sequence number matter to `Takes`. */
  lemma TakesSame(cfg: Config, length: nat, m: Machine, m': Machine, n: Machine, n': Machine, taken: seq<Option<Numbered>>)
    requires Takes(cfg, length, m, m', taken) && n.pending == m.pending && n.sequence == m.sequence
    requires n'.pending == m'.pending && n'.sequence == m'.sequence
    ensures Takes(cfg, length, n, n', taken)
  {
  }

  /** A fetch fails at a failed read, or when the network is exhausted. */
  ghost predicate Explains(f: Fetched, m': Machine, taken: seq<Option<Numbered>>) {
    if f.Got? then taken == Present(Found(f)) else taken == [None] || (taken == [] && m'.pending == [])
  }

  lemma {:induction false} FetchTakes(cfg: Config, length: nat, m: Machine) returns (taken: seq<Option<Numbered>>)
    ensures var (m', f) := Fetch(cfg, length, m); Takes(cfg, length, m, m', taken) && Explains(f, m', taken)
    decreases |m.pending|
  {
    var (m', f) := Fetch(cfg, length, m);
    if m.pending == [] {
      taken := [];
      TakesNothing(cfg, length, m, m');
    } else if m.pending[0].Failure? {
      taken := [None];
      TakesNext(cfg, length, m, m');
    } else {
      var first, found := Accept(cfg, length, m), Surviving(cfg, length, m.pending[0], m.sequence);
      FetchUnfolds(cfg, length, m);
      TakesNext(cfg, length, m, first);
      taken := Present(found);
      if found == [] {
        taken := FetchTakes(cfg, length, first);
        TakesThen(cfg, length, m, first, m', Present(found), taken);
        assert Present(found) + taken == taken;
      }
    }
  }

  /** A call ends its turn, unless the network is exhausted. */
  ghost predicate EndsTurn(cfg: Config, taken: seq<Option<Numbered>>) {
    taken == [] || |taken| == if IsSelected(cfg, taken[0]) then 2 else 1
  }

  lemma PlayAfterTurn(cfg: Config, taken: seq<Option<Numbered>>, rest: seq<Option<Numbered>>)
    requires EndsTurn(cfg, taken) || (|taken| == 1 && rest == [])
    ensures Play(cfg, taken + rest) == Then(Turn(cfg, taken), Play(cfg, rest))
  {
    if taken == [] {
      assert taken + rest == rest;
    } else {
      assert (taken + rest)[..|taken|] == taken && (taken + rest)[|taken|..] == rest;
    }
  }

  /** Greedy swapping, except that a packet left alone at the end is lost. */
  ghost predicate PlayedInFull(cfg: Config, s: seq<Numbered>, played: Played) {
    && played.pairs == Pairs(cfg, s)
    && (if EndsAlone(cfg, s) then played.out + played.lost == Swap(cfg, s) && |played.lost| == 1
        else played.out == Swap(cfg, s) && played.lost == [])
  }

  lemma PairInFull(cfg: Config, p: Numbered, q: Numbered, s: seq<Numbered>, played: Played)
    requires Every(cfg.reorderEvery, p.sequence) && PlayedInFull(cfg, s, played)
    ensures PlayedInFull(cfg, [p, q] + s, Then(Played([q, p], [(p, q)], []), played))
  {
    assert ([p, q] + s)[2..] == s;
    Associate([q, p], played.out, played.lost);
    assert [] + played.lost == played.lost;
  }

  lemma OneInFull(cfg: Config, p: Numbered, s: seq<Numbered>, played: Played)
    requires !Every(cfg.reorderEvery, p.sequence) && PlayedInFull(cfg, s, played)
    ensures PlayedInFull(cfg, [p] + s, Then(Played([p], [], []), played))
  {
    assert ([p] + s)[1..] == s;
    Associate([p], played.out, played.lost);
    assert [] + played.lost == played.lost && [] + played.pairs == played.pairs;
  }

  lemma PlayOne(cfg: Config, p: Numbered, s: seq<Numbered>)
    requires !Every(cfg.reorderEvery, p.sequence)
    ensures Play(cfg, Present([p] + s)) == Then(Played([p], [], []), Play(cfg, Present(s)))
  {
    assert Present([p] + s) == [Some(p)] + Present(s);
    PlayAfterTurn(cfg, [Some(p)], Present(s));
  }

  lemma PlayPair(cfg: Config, p: Numbered, q: Numbered, s: seq<Numbered>)
    requires Every(cfg.reorderEvery, p.sequence)
    ensures Play(cfg, Present([p, q] + s)) == Then(Played([q, p], [(p, q)], []), Play(cfg, Present(s)))
  {
    assert Present([p, q] + s) == [Some(p), Some(q)] + Present(s);
    PlayAfterTurn(cfg, [Some(p), Some(q)], Present(s));
  }

  lemma PlayAlone(cfg: Config, p: Numbered)
    requires Every(cfg.reorderEvery, p.sequence)
    ensures PlayedInFull(cfg, [p], Play(cfg, Present([p])))
  {
    assert Present([p]) == [Some(p)] + [] && [p][1..] == [];
    PlayAfterTurn(cfg, [Some(p)], []);
  }

  /** Where no read fails, what is played is greedy swapping. */
  lemma {:induction false} PlayWithoutFailures(cfg: Config, s: seq<Numbered>)
    ensures PlayedInFull(cfg, s, Play(cfg, Present(s)))
  {
    if s == [] {
    } else if !Every(cfg.reorderEvery, s[0].sequence) {
      PlayWithoutFailures(cfg, s[1..]);
      PlayOne(cfg, s[0], s[1..]);
      OneInFull(cfg, s[0], s[1..], Play(cfg, Present(s[1..])));
      assert s == [s[0]] + s[1..];
    } else if |s| >= 2 {
      PlayWithoutFailures(cfg, s[2..]);
      PlayPair(cfg, s[0], s[1], s[2..]);
      PairInFull(cfg, s[0], s[1], s[2..], Play(cfg, Present(s[2..])));
      assert s == [s[0], s[1]] + s[2..];
    } else {
      PlayAlone(cfg, s[0]);
      assert s == [s[0]];
    }
  }

  /** The effect of one call on the stream of packets: what it delivers and queues and what
      it loses are those of its turn. */
  ghost predicate Plays(cfg: Config, ready: seq<Datagram>, o: Outcome, ready': seq<Datagram>, lost: nat, played: Played) {
    && Packets([o]) + ready' == ready + Duplicate(cfg, played.out)
    && lost == |Duplicate(cfg, played.lost)|
  }

  lemma PacketsOf(o: Outcome)
    ensures Packets([o]) == if o.Delivered? then [o.packet] else []
  {
    assert [o][1..] == [];
  }

  lemma DuplicateOne(cfg: Config, p: Numbered)
    ensures Duplicate(cfg, [p]) == Copies(p.packet, Twice(cfg, p))
  {
    assert [p][1..] == [];
  }

  lemma DuplicateTwo(cfg: Config, p: Numbered, q: Numbered)
    ensures Duplicate(cfg, [p, q]) == Copies(p.packet, Twice(cfg, p)) + Copies(q.packet, Twice(cfg, q))
  {
    assert [p, q] == [p] + [q];
    DuplicateCons(cfg, p, [q]);
    DuplicateOne(cfg, q);
  }

  /** The reordering branch: `current` is held while the read after it is looked at. */
  lemma LookAheadSwaps(cfg: Config, length: nat, m: Machine, current: Numbered)
    requires |current.packet.payload| <= length && Fetch(cfg, length, m).1.Got?
    ensures var (m', o) := LookAhead(cfg, length, m, current.packet, Copies(current.packet, Twice(cfg, current)));
            var next := Found(Fetch(cfg, length, m).1)[0];
            Fits(length, m'.ready) && Plays(cfg, [], o, m'.ready, 0, Played([next, current], [(current, next)], []))
  {
    PacketsOf(LookAhead(cfg, length, m, current.packet, Copies(current.packet, Twice(cfg, current))).1);
    DuplicateTwo(cfg, Found(Fetch(cfg, length, m).1)[0], current);
  }

  lemma LookAheadLoses(cfg: Config, length: nat, m: Machine, current: Numbered)
    requires m.ready == [] && Fetch(cfg, length, m).1.Broke?
    ensures var copies := Copies(current.packet, Twice(cfg, current));
            var (m', o) := LookAhead(cfg, length, m, current.packet, copies);
            m'.ready == [] && Plays(cfg, [], o, [], |copies|, Played([], [], [current]))
  {
    PacketsOf(LookAhead(cfg, length, m, current.packet, Copies(current.packet, Twice(cfg, current))).1);
    DuplicateOne(cfg, current);
  }

  /** One call, said by the reads it takes. */
  ghost predicate CallPlays(cfg: Config, length: nat, m: Machine, taken: seq<Option<Numbered>>) {
    var (m', o) := Serve(cfg, length, m);
    && CallTakes(cfg, length, m, taken)
    && Fits(length, m'.ready)
    && Plays(cfg, m.ready, o, m'.ready, Lost(cfg, length, m), Turn(cfg, taken))
  }

  ghost predicate CallTakes(cfg: Config, length: nat, m: Machine, taken: seq<Option<Numbered>>) {
    var m' := Serve(cfg, length, m).0;
    Takes(cfg, length, m, m', taken) && (EndsTurn(cfg, taken) || (|taken| == 1 && m'.pending == []))
  }

  /** Whether a call takes a selected packet from the network. */
  predicate Selects(cfg: Config, length: nat, m: Machine) {
    var f := Fetch(cfg, length, m).1;
    m.ready == [] && f.Got? && Every(cfg.reorderEvery, f.sequence)
  }

  /** A call that swaps takes a selected packet and the read after it. */
  lemma SelectedTakes(cfg: Config, length: nat, m: Machine) returns (after: seq<Option<Numbered>>)
    requires Selects(cfg, length, m)
    ensures var (m1, first) := Fetch(cfg, length, m);
            var (m2, second) := AfterLookAhead(cfg, length, m1, Found(first)[0]);
            Explains(second, m2, after) && CallTakes(cfg, length, m, [Some(Found(first)[0])] + after)
  {
    var (m1, first) := Fetch(cfg, length, m);
    var noted := NoteDuplicate(cfg, m1, first.packet, first.sequence);
    var m2, m' := Fetch(cfg, length, noted).0, Serve(cfg, length, m).0;
    var before := FetchTakes(cfg, length, m);
    after := FetchTakes(cfg, length, noted);
    TakesSame(cfg, length, m, m1, m, noted, before);
    TakesSame(cfg, length, noted, m2, noted, m', after);
    TakesThen(cfg, length, m, noted, m', before, after);
    assert before == [Some(Found(first)[0])];
  }

  lemma SelectedCall(cfg: Config, length: nat, m: Machine) returns (taken: seq<Option<Numbered>>)
    requires Selects(cfg, length, m)
    ensures CallPlays(cfg, length, m, taken)
  {
    var (m1, first) := Fetch(cfg, length, m);
    var current, m2 := Found(first)[0], NoteDuplicate(cfg, m1, first.packet, first.sequence);
    var after := SelectedTakes(cfg, length, m);
    taken := [Some(current)] + after;
    SelectedServe(cfg, length, m);
    SelectedTurn(cfg, current, Fetch(cfg, length, m2).1, Fetch(cfg, length, m2).0, after);
    if Fetch(cfg, length, m2).1.Got? {
      LookAheadSwaps(cfg, length, m2, current);
    } else {
      LookAheadLoses(cfg, length, m2, current);
    }
  }

  lemma SelectedServe(cfg: Config, length: nat, m: Machine)
    requires Selects(cfg, length, m)
    ensures var (m1, first) := Fetch(cfg, length, m);
            var m2, copies := NoteDuplicate(cfg, m1, first.packet, first.sequence), Copies(first.packet, Twice(cfg, Found(first)[0]));
            && m2.ready == [] && |first.packet.payload| <= length
            && Serve(cfg, length, m) == LookAhead(cfg, length, m2, first.packet, copies)
            && Lost(cfg, length, m) == if Fetch(cfg, length, m2).1.Got? then 0 else |copies|
  {
  }

  lemma SelectedTurn(cfg: Config, current: Numbered, second: Fetched, m2: Machine, after: seq<Option<Numbered>>)
    requires Every(cfg.reorderEvery, current.sequence) && Explains(second, m2, after)
    ensures Turn(cfg, [Some(current)] + after)
            == if second.Got? then Played([Found(second)[0], current], [(current, Found(second)[0])], [])
               else Played([], [], [current])
  {
  }

  /** A call whose first read fails or is not selected takes that read alone. */
  lemma PlainTakes(cfg: Config, length: nat, m: Machine) returns (taken: seq<Option<Numbered>>)
    requires m.ready == [] && !Selects(cfg, length, m)
    ensures Explains(Fetch(cfg, length, m).1, Fetch(cfg, length, m).0, taken) && CallTakes(cfg, length, m, taken)
  {
    taken := FetchTakes(cfg, length, m);
    TakesSame(cfg, length, m, Fetch(cfg, length, m).0, m, Serve(cfg, length, m).0, taken);
  }

  lemma PlainCall(cfg: Config, length: nat, m: Machine) returns (taken: seq<Option<Numbered>>)
    requires m.ready == [] && !Selects(cfg, length, m)
    ensures CallPlays(cfg, length, m, taken)
  {
    var first := Fetch(cfg, length, m).1;
    taken := PlainTakes(cfg, length, m);
    PacketsOf(Serve(cfg, length, m).1);
    if first.Got? {
      DuplicateOne(cfg, Found(first)[0]);
    }
  }

  /** A call that finds a packet queued takes nothing. */
  lemma QueueCall(cfg: Config, length: nat, m: Machine)
    requires m.ready != [] && Fits(length, m.ready)
    ensures CallPlays(cfg, length, m, [])
  {
    var (m', o) := Serve(cfg, length, m);
    TakesNothing(cfg, length, m, m');
    PacketsOf(o);
    assert m.ready[0] in m.ready;
  }

  lemma ServePlays(cfg: Config, length: nat, m: Machine) returns (taken: seq<Option<Numbered>>)
    requires Fits(length, m.ready)
    ensures CallPlays(cfg, length, m, taken)
  {
    if m.ready != [] {
      QueueCall(cfg, length, m);
      taken := [];
    } else if Selects(cfg, length, m) {
      taken := SelectedCall(cfg, length, m);
    } else {
      taken := PlainCall(cfg, length, m);
    }
  }

  // ---------------------------------------------------------------- nothing else is lost

  /** The packets among some reads. */
  function Somes(stream: seq<Option<Numbered>>): seq<Numbered> {
    if stream == [] then []
    else SomeOf(stream[0]) + Somes(stream[1..])
  }

  function SomeOf(read: Option<Numbered>): seq<Numbered> {
    if read.Some? then [read.value] else []
  }

  lemma {:induction false} SomesAppend(a: seq<Option<Numbered>>, b: seq<Option<Numbered>>)
    ensures Somes(a + b) == Somes(a) + Somes(b)
  {
    if a == [] {
      assert a + b == b;
    } else {
      assert (a + b)[1..] == a[1..] + b;
      SomesAppend(a[1..], b);
      Associate(SomeOf(a[0]), Somes(a[1..]), Somes(b));
    }
  }

  lemma SomesOne(read: Option<Numbered>)
    ensures Somes([read]) == SomeOf(read)
  {
    assert [read][1..] == [];
  }

  lemma SomesOfInput(cfg: Config, length: nat, input: Input, last: uint64)
    ensures Somes(ReadOf(cfg, length, input, last)) == Surviving(cfg, length, input, last)
  {
    var found := ReadOf(cfg, length, input, last);
    assert found != [] ==> found == [found[0]] && found[1..] == [];
  }

  lemma {:induction false} SomesOfReads(cfg: Config, length: nat, inputs: seq<Input>, last: uint64)
    ensures Somes(Reads(cfg, length, inputs, last)) == Survivors(cfg, length, inputs, last)
  {
    if inputs != [] {
      var next := NumberAfter(inputs[0], last);
      SomesOfReads(cfg, length, inputs[1..], next);
      SomesOfInput(cfg, length, inputs[0], last);
      SomesAppend(ReadOf(cfg, length, inputs[0], last), Reads(cfg, length, inputs[1..], next));
    }
  }

  /** What is played is what was there, each packet once. */
  ghost predicate Keeps(stream: seq<Option<Numbered>>, played: Played) {
    multiset(Somes(stream)) == multiset(played.out) + multiset(played.lost)
  }

  lemma OneKeeps(cfg: Config, read: Option<Numbered>)
    ensures Keeps([read], Turn(cfg, [read]))
  {
    SomesOne(read);
  }

  lemma TwoKeep(cfg: Config, p: Option<Numbered>, q: Option<Numbered>)
    requires IsSelected(cfg, p)
    ensures Keeps([p, q], Turn(cfg, [p, q]))
  {
    SomesOne(p);
    SomesOne(q);
    SomesAppend([p], [q]);
    assert [p, q] == [p] + [q];
    assert Somes([p, q]) == [p.value] + SomeOf(q);
  }

  lemma TurnKeeps(cfg: Config, stream: seq<Option<Numbered>>)
    requires stream != []
    ensures var taken := stream[..TurnLength(cfg, stream)]; Keeps(taken, Turn(cfg, taken))
  {
    if TurnLength(cfg, stream) == 1 {
      assert stream[..1] == [stream[0]];
      OneKeeps(cfg, stream[0]);
    } else {
      assert stream[..2] == [stream[0], stream[1]];
      TwoKeep(cfg, stream[0], stream[1]);
    }
  }

  lemma KeepsThen(a: seq<Option<Numbered>>, b: seq<Option<Numbered>>, first: Played, rest: Played)
    requires Keeps(a, first) && Keeps(b, rest)
    ensures Keeps(a + b, Then(first, rest))
  {
    SomesAppend(a, b);
  }

  /** Every packet of the stream comes out once or is lost once, and nothing else does. */
  lemma {:induction false} PlayKeeps(cfg: Config, stream: seq<Option<Numbered>>)
    ensures Keeps(stream, Play(cfg, stream))
    decreases |stream|
  {
    if stream != [] {
      var n := TurnLength(cfg, stream);
      TurnKeeps(cfg, stream);
      PlayKeeps(cfg, stream[n..]);
      KeepsThen(stream[..n], stream[n..], Turn(cfg, stream[..n]), Play(cfg, stream[n..]));
      assert stream == stream[..n] + stream[n..];
    }
  }

  // ---------------------------------------------------------------- what calls count

  lemma FetchCounts(cfg: Config, length: nat, m: Machine)
    requires Balanced(m)
    ensures var (m1, f) := Fetch(cfg, length, m);
            && ReordersGrow(m, m1, [])
            && (f.Got? ==>
                  var m2 := NoteDuplicate(cfg, m1, f.packet, f.sequence);
                  Balanced(m2) && 2 * m2.stats.reordered < Passing(m2.stats) && ReordersGrow(m, m2, []))
  {
    var (m1, f) := Fetch(cfg, length, m);
    FetchBalanced(cfg, length, m);
    FetchKeepsReorders(cfg, length, m);
    if f.Got? {
      NoteBalanced(cfg, m1, f.packet, f.sequence);
    }
  }

  lemma SelectedCounts(cfg: Config, length: nat, m: Machine) returns (taken: seq<Option<Numbered>>)
    requires Balanced(m) && Selects(cfg, length, m)
    ensures CallTakes(cfg, length, m, taken) && ReordersGrow(m, Serve(cfg, length, m).0, Turn(cfg, taken).pairs)
  {
    var (m1, first) := Fetch(cfg, length, m);
    var current, m2 := Found(first)[0], NoteDuplicate(cfg, m1, first.packet, first.sequence);
    var after := SelectedTakes(cfg, length, m);
    taken := [Some(current)] + after;
    FetchCounts(cfg, length, m);
    if Fetch(cfg, length, m2).1.Got? {
      LookAheadReorders(cfg, length, m2, current, Copies(current.packet, Twice(cfg, current)));
    } else {
      FetchKeepsReorders(cfg, length, m2);
    }
  }

  lemma ServeCounts(cfg: Config, length: nat, m: Machine) returns (taken: seq<Option<Numbered>>)
    requires Balanced(m)
    ensures CallTakes(cfg, length, m, taken) && ReordersGrow(m, Serve(cfg, length, m).0, Turn(cfg, taken).pairs)
  {
    if m.ready != [] {
      taken := [];
      TakesNothing(cfg, length, m, Serve(cfg, length, m).0);
    } else if Selects(cfg, length, m) {
      taken := SelectedCounts(cfg, length, m);
    } else {
      taken := PlainTakes(cfg, length, m);
      FetchCounts(cfg, length, m);
    }
  }

  // ---------------------------------------------------------------- runs

  /** What a run has read. */
  ghost function ReadsOf(cfg: Config, length: nat, lengths: seq<nat>, m: Machine): seq<Option<Numbered>> {
    RunReaches(cfg, lengths, m);
    Reads(cfg, length, Consumed(m, Run(cfg, lengths, m).0), m.sequence)
  }

  lemma ReadsOfRun(cfg: Config, length: nat, lengths: seq<nat>, m: Machine, taken: seq<Option<Numbered>>)
    requires lengths != [] && lengths[0] == length && CallTakes(cfg, length, m, taken)
    ensures var m1 := Serve(cfg, length, m).0;
            && ReadsOf(cfg, length, lengths, m) == taken + ReadsOf(cfg, length, lengths[1..], m1)
            && (m1.pending == [] ==> ReadsOf(cfg, length, lengths[1..], m1) == [])
  {
    var m1 := Serve(cfg, length, m).0;
    var m' := Run(cfg, lengths[1..], m1).0;
    RunReaches(cfg, lengths[1..], m1);
    TakesThen(cfg, length, m, m1, m', taken, ReadsOf(cfg, length, lengths[1..], m1));
  }

  /** The effect of a run, as that of a call. */
  ghost predicate RunPlays(cfg: Config, lengths: seq<nat>, m: Machine, played: Played) {
    var (m', outcomes) := Run(cfg, lengths, m);
    && Packets(outcomes) + m'.ready == m.ready + Duplicate(cfg, played.out)
    && LostInRun(cfg, lengths, m) == |Duplicate(cfg, played.lost)|
  }

  lemma {:induction false} DuplicateAppend(cfg: Config, a: seq<Numbered>, b: seq<Numbered>)
    ensures Duplicate(cfg, a + b) == Duplicate(cfg, a) + Duplicate(cfg, b)
  {
    if a == [] {
      assert a + b == b;
    } else {
      assert (a + b)[1..] == a[1..] + b;
      DuplicateAppend(cfg, a[1..], b);
    }
  }

  lemma RunPlaysThen(cfg: Config, lengths: seq<nat>, m: Machine, first: Played, rest: Played)
    requires lengths != []
    requires var (m1, o) := Serve(cfg, lengths[0], m); Plays(cfg, m.ready, o, m1.ready, Lost(cfg, lengths[0], m), first)
    requires RunPlays(cfg, lengths[1..], Serve(cfg, lengths[0], m).0, rest)
    ensures RunPlays(cfg, lengths, m, Then(first, rest))
  {
    var (m1, o) := Serve(cfg, lengths[0], m);
    var (m', tail) := Run(cfg, lengths[1..], m1);
    DuplicateAppend(cfg, first.out, rest.out);
    DuplicateAppend(cfg, first.lost, rest.lost);
    PacketsThen(o, tail);
    Regrouped(Packets([o]), Packets(tail), m'.ready, m1.ready, m.ready, Duplicate(cfg, first.out), Duplicate(cfg, rest.out));
  }

  lemma PacketsThen(o: Outcome, tail: seq<Outcome>)
    ensures Packets([o] + tail) == Packets([o]) + Packets(tail)
  {
    PacketsOf(o);
    assert ([o] + tail)[1..] == tail;
  }

  lemma Regrouped(first: seq<Datagram>, tail: seq<Datagram>, left: seq<Datagram>, between: seq<Datagram>, ready: seq<Datagram>,
                  a: seq<Datagram>, b: seq<Datagram>)
    requires first + between == ready + a && tail + left == between + b
    ensures first + tail + left == ready + (a + b)
  {
    Associate(first, tail, left);
    Associate(first, between, b);
    Associate(ready, a, b);
  }

  /** Refinement for every run, whichever reads fail: what was delivered followed by what is
      queued is the played and duplicated stream of reads, and the copies that were thrown
      away are those of the packets left without a partner. */
  lemma {:induction false} FailingRefinement(cfg: Config, length: nat, lengths: seq<nat>, m: Machine)
    requires SameLength(length, lengths) && Fits(length, m.ready)
    ensures RunPlays(cfg, lengths, m, Play(cfg, ReadsOf(cfg, length, lengths, m)))
  {
    if lengths == [] {
      ReachesSame(m, m);
    } else {
      var m1 := Serve(cfg, length, m).0;
      var taken := ServePlays(cfg, length, m);
      ReadsOfRun(cfg, length, lengths, m, taken);
      var rest := ReadsOf(cfg, length, lengths[1..], m1);
      FailingRefinement(cfg, length, lengths[1..], m1);
      PlayAfterTurn(cfg, taken, rest);
      RunPlaysThen(cfg, lengths, m, Turn(cfg, taken), Play(cfg, rest));
    }
  }

  /** So on every run the survivors are, each exactly once, the packets that come out and
      those that are lost. */
  lemma SurvivorsPlayed(cfg: Config, length: nat, lengths: seq<nat>, m: Machine)
    ensures var played := Play(cfg, ReadsOf(cfg, length, lengths, m));
            multiset(SurvivorsOf(cfg, length, lengths, m)) == multiset(played.out) + multiset(played.lost)
  {
    RunReaches(cfg, lengths, m);
    SomesOfReads(cfg, length, Consumed(m, Run(cfg, lengths, m).0), m.sequence);
    PlayKeeps(cfg, ReadsOf(cfg, length, lengths, m));
  }

  lemma {:induction false} RunCounts(cfg: Config, length: nat, lengths: seq<nat>, m: Machine)
    requires Balanced(m) && |m.ready| <= 3 && SameLength(length, lengths)
    ensures ReordersGrow(m, Run(cfg, lengths, m).0, Play(cfg, ReadsOf(cfg, length, lengths, m)).pairs)
  {
    if lengths == [] {
      ReachesSame(m, m);
    } else {
      var m1 := Serve(cfg, length, m).0;
      var taken := ServeCounts(cfg, length, m);
      ReadsOfRun(cfg, length, lengths, m, taken);
      var rest := ReadsOf(cfg, length, lengths[1..], m1);
      ServeConserves(cfg, length, m);
      RunCounts(cfg, length, lengths[1..], m1);
      PlayAfterTurn(cfg, taken, rest);
      CountIfAppend(PairHasData, Turn(cfg, taken).pairs, Play(cfg, rest).pairs);
    }
  }

  /** On every run the reorder counters are the numbers of exchanged pairs, and of those with
      channel data in them. */
  lemma FailingReorderCounters(cfg: Config, length: nat, lengths: seq<nat>, inputs: seq<Input>)
    requires |inputs| < U64 && SameLength(length, lengths)
    ensures var stats := Run(cfg, lengths, Initial(inputs)).0.stats;
            var pairs := Play(cfg, ReadsOf(cfg, length, lengths, Initial(inputs))).pairs;
            stats.reordered == |pairs| && stats.dataReordered == CountIf(PairHasData, pairs)
  {
    RunCounts(cfg, length, lengths, Initial(inputs));
  }
}
