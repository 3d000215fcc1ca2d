/** What each of the impairer's counters counts, on every run with equal buffers. */
module Counters {
  import opened Wrappers
  import opened Impairment
  import opened StreamTransformer
  import opened ImpairmentLaws

  function CountIf<T>(p: T -> bool, s: seq<T>): nat {
    if s == [] then 0 else (if p(s[0]) then 1 else 0) + CountIf(p, s[1..])
  }

  lemma {:induction false} CountIfAppend<T>(p: T -> bool, s: seq<T>, t: seq<T>)
    ensures CountIf(p, s + t) == CountIf(p, s) + CountIf(p, t)
  {
    if s == [] {
      assert s + t == t;
    } else {
      assert (s + t)[1..] == s[1..] + t;
      CountIfAppend(p, s[1..], t);
    }
  }

  lemma {:induction false} CountIfAgrees<T>(p: T -> bool, q: T -> bool, s: seq<T>)
    requires forall x <- s :: p(x) == q(x)
    ensures CountIf(p, s) == CountIf(q, s)
  {
    if s != [] {
      assert s[0] in s;
      CountIfAgrees(p, q, s[1..]);
    }
  }

  // ---------------------------------------------------------------- counters of arrivals

  /** The counters of arrivals: the totals and their channel-data parts. */
  datatype Counter =
    | ReadPackets | MTUDropped | DataMTUDropped | Dropped | DataDropped
    | Delayed | DataDelayed | DataJittered | DataBandwidth

  function Value(counter: Counter, s: Stats): int {
    match counter
    case ReadPackets => s.readPackets
    case MTUDropped => s.mtuDropped
    case DataMTUDropped => s.dataMTUDropped
    case Dropped => s.dropped
    case DataDropped => s.dataDropped
    case Delayed => s.delayed
    case DataDelayed => s.dataDelayed
    case DataJittered => s.dataJittered
    case DataBandwidth => s.dataBandwidth
  }

  /** What an arrival must be for a counter to count it: too large for the MTU, or else due to
      be dropped by its number, or else kept waiting. */
  predicate Applies(cfg: Config, counter: Counter, a: Numbered) {
    var size, data := |a.packet.payload|, IsChannelData(a.packet.payload);
    var oversize := cfg.mtu > 0 && size > cfg.mtu;
    var periodic := !oversize && cfg.dropEvery != 0 && a.sequence % cfg.dropEvery == 0;
    var delayed := !oversize && !periodic && Wait(cfg, a.sequence, size) > 0;
    match counter
    case ReadPackets => true
    case MTUDropped => oversize
    case DataMTUDropped => oversize && data
    case Dropped => periodic
    case DataDropped => periodic && data
    case Delayed => delayed
    case DataDelayed => delayed && data
    case DataJittered => delayed && data && JitterOffset(cfg, a.sequence) != 0
    case DataBandwidth => delayed && data && cfg.bandwidth > 0 && size > 0
  }

  function Applying(cfg: Config, counter: Counter): Numbered -> bool {
    a => Applies(cfg, counter, a)
  }

  lemma DelayCounts(s: Stats, wait: int64, data: bool, jittered: bool, limited: bool)
    requires Books(s) && s.delayed < Passing(s)
    ensures var s', delayed := CountDelay(s, wait, data, jittered, limited), wait > 0;
            && s'.delayed == s.delayed + (if delayed then 1 else 0)
            && s'.dataDelayed == s.dataDelayed + (if delayed && data then 1 else 0)
            && s'.dataJittered == s.dataJittered + (if delayed && data && jittered then 1 else 0)
            && s'.dataBandwidth == s.dataBandwidth + (if delayed && data && limited then 1 else 0)
  {
    AddOne(s.delayed);
    BumpOne(s.dataDelayed, data);
    BumpOne(s.dataJittered, data && jittered);
    BumpOne(s.dataBandwidth, data && limited);
  }

  /** Each arrival moves each counter by one exactly when it applies. */
  lemma AccountCounts(cfg: Config, counter: Counter, s: Stats, a: Numbered)
    requires Books(s) && s.readPackets + 1 < U64
    ensures Value(counter, Account(cfg, s, a.sequence, a.packet.payload))
            == Value(counter, s) + if Applies(cfg, counter, a) then 1 else 0
  {
    if Screen(cfg, a.sequence, |a.packet.payload|).Passed? {
      PassedCounts(cfg, counter, s, a);
    } else {
      DroppedCounts(cfg, counter, s, a);
    }
  }

  lemma PassedCounts(cfg: Config, counter: Counter, s: Stats, a: Numbered)
    requires Books(s) && s.readPackets + 1 < U64 && Screen(cfg, a.sequence, |a.packet.payload|).Passed?
    ensures Value(counter, Account(cfg, s, a.sequence, a.packet.payload))
            == Value(counter, s) + if Applies(cfg, counter, a) then 1 else 0
  {
    var size := |a.packet.payload|;
    AddOne(s.readPackets);
    DelayCounts(CountRead(s, size), Wait(cfg, a.sequence, size), IsChannelData(a.packet.payload),
                JitterOffset(cfg, a.sequence) != 0, cfg.bandwidth > 0 && size > 0);
  }

  lemma DroppedCounts(cfg: Config, counter: Counter, s: Stats, a: Numbered)
    requires Books(s) && s.readPackets + 1 < U64 && !Screen(cfg, a.sequence, |a.packet.payload|).Passed?
    ensures Value(counter, Account(cfg, s, a.sequence, a.packet.payload))
            == Value(counter, s) + if Applies(cfg, counter, a) then 1 else 0
  {
    AddOne(s.readPackets);
    AddOne(s.mtuDropped);
    AddOne(s.dropped);
    BumpOne(s.dataMTUDropped, IsChannelData(a.packet.payload));
    BumpOne(s.dataDropped, IsChannelData(a.packet.payload));
  }

  lemma {:induction false} ArrivalsAppend(length: nat, a: seq<Input>, b: seq<Input>, last: uint64)
    ensures Arrivals(length, a + b, last) == Arrivals(length, a, last) + Arrivals(length, b, LastNumber(a, last))
  {
    if a == [] {
      assert a + b == b;
      assert Arrivals(length, a, last) == [];
    } else {
      assert (a + b)[1..] == a[1..] + b;
      ArrivalsAppend(length, a[1..], b, NumberAfter(a[0], last));
      Associate(ArrivalOf(length, a[0], last), Arrivals(length, a[1..], NumberAfter(a[0], last)), Arrivals(length, b, LastNumber(a, last)));
    }
  }

  /** From `m` to `m'` the network was read up to some point, and the counter grew by the
      number of arrivals on the way to which it applies. */
  ghost predicate Counted(cfg: Config, counter: Counter, length: nat, m: Machine, m': Machine) {
    && Reaches(m, m')
    && Value(counter, m'.stats) == Value(counter, m.stats) + CountIf(Applying(cfg, counter), Arrivals(length, Consumed(m, m'), m.sequence))
  }

  lemma CountedThen(cfg: Config, counter: Counter, length: nat, m: Machine, m1: Machine, m2: Machine)
    requires Counted(cfg, counter, length, m, m1) && Counted(cfg, counter, length, m1, m2)
    ensures Counted(cfg, counter, length, m, m2)
  {
    var a, b := Consumed(m, m1), Consumed(m1, m2);
    ReachesThen(m, m1, m2);
    ArrivalsAppend(length, a, b, m.sequence);
    CountIfAppend(Applying(cfg, counter), Arrivals(length, a, m.sequence), Arrivals(length, b, m1.sequence));
  }

  lemma CountedNothing(cfg: Config, counter: Counter, length: nat, m: Machine, m': Machine)
    requires m'.pending == m.pending && m'.sequence == m.sequence && Value(counter, m'.stats) == Value(counter, m.stats)
    ensures Counted(cfg, counter, length, m, m')
  {
    ReachesSame(m, m');
  }

  lemma CountedInput(cfg: Config, counter: Counter, length: nat, m: Machine, m': Machine)
    requires m.pending != [] && m'.pending == m.pending[1..] && m'.sequence == NumberAfter(m.pending[0], m.sequence)
    requires Value(counter, m'.stats) == Value(counter, m.stats) + CountIf(Applying(cfg, counter), ArrivalOf(length, m.pending[0], m.sequence))
    ensures Counted(cfg, counter, length, m, m')
  {
    ReachesNext(m, m');
    assert [m.pending[0]][1..] == [];
    assert ArrivalOf(length, m.pending[0], m.sequence) + [] == ArrivalOf(length, m.pending[0], m.sequence);
  }

  lemma AcceptCounted(cfg: Config, counter: Counter, length: nat, m: Machine)
    requires Balanced(m) && m.pending != [] && m.pending[0].Arrival?
    ensures Counted(cfg, counter, length, m, Accept(cfg, length, m))
  {
    var arrived := ArrivalOf(length, m.pending[0], m.sequence);
    assert arrived[1..] == [];
    assert CountIf(Applying(cfg, counter), arrived) == if Applies(cfg, counter, arrived[0]) then 1 else 0;
    AddOne(m.sequence);
    AccountCounts(cfg, counter, m.stats, arrived[0]);
    CountedInput(cfg, counter, length, m, Accept(cfg, length, m));
  }

  lemma {:induction false} FetchCounted(cfg: Config, counter: Counter, length: nat, m: Machine)
    requires Balanced(m)
    ensures Counted(cfg, counter, length, m, Fetch(cfg, length, m).0)
    decreases |m.pending|
  {
    var m' := Fetch(cfg, length, m).0;
    if m.pending == [] {
      CountedNothing(cfg, counter, length, m, m');
    } else if m.pending[0].Failure? {
      CountedInput(cfg, counter, length, m, m');
    } else {
      AcceptCounted(cfg, counter, length, m);
      AcceptBalanced(cfg, length, m);
      var first := Accept(cfg, length, m);
      if Surviving(cfg, length, m.pending[0], m.sequence) == [] {
        FetchCounted(cfg, counter, length, first);
        CountedThen(cfg, counter, length, m, first, m');
      }
    }
  }

  lemma LookAheadCounted(cfg: Config, counter: Counter, length: nat, m: Machine,
                         current: Datagram, copies: seq<Datagram>)
    requires Balanced(m)
    ensures Counted(cfg, counter, length, m, LookAhead(cfg, length, m, current, copies).0)
  {
    var (m1, second) := Fetch(cfg, length, m);
    var m' := LookAhead(cfg, length, m, current, copies).0;
    FetchCounted(cfg, counter, length, m);
    SwappingCounts(cfg, counter, length, m, current, copies);
    CountedNothing(cfg, counter, length, m1, m');
    CountedThen(cfg, counter, length, m, m1, m');
  }

  /** Swapping and duplicating move no counter of arrivals, and read nothing. */
  lemma SwappingCounts(cfg: Config, counter: Counter, length: nat, m: Machine, current: Datagram, copies: seq<Datagram>)
    ensures var m1, m' := Fetch(cfg, length, m).0, LookAhead(cfg, length, m, current, copies).0;
            m'.pending == m1.pending && m'.sequence == m1.sequence && Value(counter, m'.stats) == Value(counter, m1.stats)
  {
  }

  lemma ServeCounted(cfg: Config, counter: Counter, length: nat, m: Machine)
    requires Balanced(m)
    ensures Counted(cfg, counter, length, m, Serve(cfg, length, m).0)
  {
    var m' := Serve(cfg, length, m).0;
    if m.ready != [] {
      CountedNothing(cfg, counter, length, m, m');
    } else {
      var (m1, first) := Fetch(cfg, length, m);
      FetchBalanced(cfg, length, m);
      FetchCounted(cfg, counter, length, m);
      if first.Got? {
        var m2 := NoteDuplicate(cfg, m1, first.packet, first.sequence);
        NoteBalanced(cfg, m1, first.packet, first.sequence);
        CountedNothing(cfg, counter, length, m1, m2);
        CountedThen(cfg, counter, length, m, m1, m2);
        FinishCounted(cfg, counter, length, m2, first.packet, first.sequence);
        CountedThen(cfg, counter, length, m, m2, m');
      }
    }
  }

  /** The rest of a call after its first packet has been noted. */
  lemma {:induction false} FinishCounted(cfg: Config, counter: Counter, length: nat, m: Machine, current: Datagram, sequence: uint64)
    requires Balanced(m)
    ensures var copies := Copies(current, Every(cfg.duplicateEvery, sequence));
            if Every(cfg.reorderEvery, sequence) then Counted(cfg, counter, length, m, LookAhead(cfg, length, m, current, copies).0)
            else Counted(cfg, counter, length, m, m.(ready := copies[1..]))
  {
    var copies := Copies(current, Every(cfg.duplicateEvery, sequence));
    LookAheadCounted(cfg, counter, length, m, current, copies);
    CountedNothing(cfg, counter, length, m, m.(ready := copies[1..]));
  }

  lemma {:induction false} RunCounted(cfg: Config, counter: Counter, length: nat, lengths: seq<nat>, m: Machine)
    requires Balanced(m) && |m.ready| <= 3 && SameLength(length, lengths)
    ensures Counted(cfg, counter, length, m, Run(cfg, lengths, m).0)
  {
    if lengths == [] {
      CountedNothing(cfg, counter, length, m, m);
    } else {
      var m1 := Serve(cfg, length, m).0;
      ServeConserves(cfg, length, m);
      ServeCounted(cfg, counter, length, m);
      RunCounted(cfg, counter, length, lengths[1..], m1);
      CountedThen(cfg, counter, length, m, m1, Run(cfg, lengths[1..], m1).0);
    }
  }

  /** On every run, failing reads included, each counter of arrivals is the number of
      packets read to which it applies. */
  lemma ArrivalCounters(cfg: Config, counter: Counter, length: nat, lengths: seq<nat>, inputs: seq<Input>)
    requires |inputs| < U64 && SameLength(length, lengths)
    ensures var m' := Run(cfg, lengths, Initial(inputs)).0;
            && |m'.pending| <= |inputs|
            && Value(counter, m'.stats)
               == CountIf(Applying(cfg, counter), Arrivals(length, Consumed(Initial(inputs), m'), 0))
  {
    ZeroStats(counter);
    RunCountedFrom(cfg, counter, length, lengths, Initial(inputs));
  }

  lemma ZeroStats(counter: Counter)
    ensures Books(ZERO_STATS) && Value(counter, ZERO_STATS) == 0
  {
  }

  lemma RunCountedFrom(cfg: Config, counter: Counter, length: nat, lengths: seq<nat>, m: Machine)
    requires Balanced(m) && m.ready == [] && SameLength(length, lengths)
    ensures var m' := Run(cfg, lengths, m).0;
            && |m'.pending| <= |m.pending|
            && Value(counter, m'.stats)
               == Value(counter, m.stats) + CountIf(Applying(cfg, counter), Arrivals(length, Consumed(m, m'), m.sequence))
  {
    RunCounted(cfg, counter, length, lengths, m);
  }

  // ---------------------------------------------------------------- sizes

  function TotalBytes(arrivals: seq<Numbered>): nat {
    if arrivals == [] then 0 else |arrivals[0].packet.payload| + TotalBytes(arrivals[1..])
  }

  /** The larger of `size` and the sizes of the packets. */
  function LargestSize(size: int, arrivals: seq<Numbered>): int
    decreases |arrivals|
  {
    if arrivals == [] then size
    else LargestSize(if |arrivals[0].packet.payload| > size then |arrivals[0].packet.payload| else size, arrivals[1..])
  }

  lemma {:induction false} LargestSizeIsLargest(size: int, arrivals: seq<Numbered>)
    ensures size <= LargestSize(size, arrivals) && forall a <- arrivals :: |a.packet.payload| <= LargestSize(size, arrivals)
    ensures LargestSize(size, arrivals) == size || exists a <- arrivals :: |a.packet.payload| == LargestSize(size, arrivals)
    decreases |arrivals|
  {
    if arrivals != [] {
      LargestSizeIsLargest(if |arrivals[0].packet.payload| > size then |arrivals[0].packet.payload| else size, arrivals[1..]);
      assert arrivals == [arrivals[0]] + arrivals[1..];
    }
  }

  lemma {:induction false} SizesAppend(size: int, a: seq<Numbered>, b: seq<Numbered>)
    ensures TotalBytes(a + b) == TotalBytes(a) + TotalBytes(b)
    ensures LargestSize(size, a + b) == LargestSize(LargestSize(size, a), b)
    decreases |a|
  {
    if a == [] {
      assert a + b == b;
    } else {
      assert (a + b)[1..] == a[1..] + b;
      SizesAppend(if |a[0].packet.payload| > size then |a[0].packet.payload| else size, a[1..], b);
    }
  }

  /** The two counters grow by the sizes of some packets. */
  ghost predicate SizesGrow(s: Stats, s': Stats, arrivals: seq<Numbered>) {
    && s'.readBytes == (s.readBytes + TotalBytes(arrivals)) % U64
    && s'.maxDatagramSize == LargestSize(s.maxDatagramSize, arrivals)
  }

  ghost predicate Sized(length: nat, m: Machine, m': Machine) {
    Reaches(m, m') && SizesGrow(m.stats, m'.stats, Arrivals(length, Consumed(m, m'), m.sequence))
  }

  lemma AddModulo(x: int, a: int, b: int, y: int, z: int)
    requires y == (x + a) % U64 && z == (y + b) % U64
    ensures z == (x + (a + b)) % U64
  {
  }

  lemma SizesGrowThen(s: Stats, s1: Stats, s2: Stats, a: seq<Numbered>, b: seq<Numbered>)
    requires SizesGrow(s, s1, a) && SizesGrow(s1, s2, b)
    ensures SizesGrow(s, s2, a + b)
  {
    SizesAppend(s.maxDatagramSize, a, b);
    AddModulo(s.readBytes, TotalBytes(a), TotalBytes(b), s1.readBytes, s2.readBytes);
  }

  lemma SizedThen(length: nat, m: Machine, m1: Machine, m2: Machine)
    requires Sized(length, m, m1) && Sized(length, m1, m2)
    ensures Sized(length, m, m2)
  {
    var a, b := Arrivals(length, Consumed(m, m1), m.sequence), Arrivals(length, Consumed(m1, m2), m1.sequence);
    ReachesThen(m, m1, m2);
    ArrivalsAppend(length, Consumed(m, m1), Consumed(m1, m2), m.sequence);
    SizesGrowThen(m.stats, m1.stats, m2.stats, a, b);
  }

  lemma SizedNothing(length: nat, m: Machine, m': Machine)
    requires m'.pending == m.pending && m'.sequence == m.sequence
    requires m'.stats.readBytes == m.stats.readBytes && m'.stats.maxDatagramSize == m.stats.maxDatagramSize
    ensures Sized(length, m, m')
  {
    ReachesSame(m, m');
  }

  lemma SizedInput(length: nat, m: Machine, m': Machine)
    requires m.pending != [] && m'.pending == m.pending[1..] && m'.sequence == NumberAfter(m.pending[0], m.sequence)
    requires SizesGrow(m.stats, m'.stats, ArrivalOf(length, m.pending[0], m.sequence))
    ensures Sized(length, m, m')
  {
    ReachesNext(m, m');
    assert [m.pending[0]][1..] == [];
    assert ArrivalOf(length, m.pending[0], m.sequence) + [] == ArrivalOf(length, m.pending[0], m.sequence);
  }

  lemma AccountSizes(cfg: Config, s: Stats, sequence: uint64, payload: seq<Byte>)
    ensures var s' := Account(cfg, s, sequence, payload);
            && s'.readBytes == (s.readBytes + |payload|) % U64
            && s'.maxDatagramSize == if |payload| > s.maxDatagramSize then |payload| else s.maxDatagramSize
  {
    AddModulo(0, |payload|, s.readBytes, |payload| % U64, (|payload| % U64 + s.readBytes) % U64);
  }

  lemma AcceptSized(cfg: Config, length: nat, m: Machine)
    requires m.pending != [] && m.pending[0].Arrival?
    ensures Sized(length, m, Accept(cfg, length, m))
  {
    var arrived := ArrivalOf(length, m.pending[0], m.sequence);
    assert arrived[1..] == [];
    AccountSizes(cfg, m.stats, Add64(m.sequence, 1), arrived[0].packet.payload);
    SizedInput(length, m, Accept(cfg, length, m));
  }

  lemma {:induction false} FetchSized(cfg: Config, length: nat, m: Machine)
    ensures Sized(length, m, Fetch(cfg, length, m).0)
    decreases |m.pending|
  {
    var m' := Fetch(cfg, length, m).0;
    if m.pending == [] {
      SizedNothing(length, m, m');
    } else if m.pending[0].Failure? {
      SizedInput(length, m, m');
    } else {
      var first := Accept(cfg, length, m);
      FetchUnfolds(cfg, length, m);
      AcceptSized(cfg, length, m);
      if Surviving(cfg, length, m.pending[0], m.sequence) == [] {
        FetchSized(cfg, length, first);
        SizedThen(length, m, first, m');
      }
    }
  }

  lemma LookAheadSized(cfg: Config, length: nat, m: Machine, current: Datagram, copies: seq<Datagram>)
    ensures Sized(length, m, LookAhead(cfg, length, m, current, copies).0)
  {
    var m1, m' := Fetch(cfg, length, m).0, LookAhead(cfg, length, m, current, copies).0;
    FetchSized(cfg, length, m);
    SizedNothing(length, m1, m');
    SizedThen(length, m, m1, m');
  }

  lemma ServeSized(cfg: Config, length: nat, m: Machine)
    ensures Sized(length, m, Serve(cfg, length, m).0)
  {
    var m' := Serve(cfg, length, m).0;
    if m.ready != [] {
      SizedNothing(length, m, m');
    } else {
      var (m1, first) := Fetch(cfg, length, m);
      FetchSized(cfg, length, m);
      if first.Got? && Every(cfg.reorderEvery, first.sequence) {
        var m2 := NoteDuplicate(cfg, m1, first.packet, first.sequence);
        SizedNothing(length, m1, m2);
        SizedThen(length, m, m1, m2);
        LookAheadSized(cfg, length, m2, first.packet, Copies(first.packet, Every(cfg.duplicateEvery, first.sequence)));
        SizedThen(length, m, m2, m');
      } else {
        SizedNothing(length, m1, m');
        SizedThen(length, m, m1, m');
      }
    }
  }

  lemma {:induction false} RunSized(cfg: Config, length: nat, lengths: seq<nat>, m: Machine)
    requires SameLength(length, lengths)
    ensures Sized(length, m, Run(cfg, lengths, m).0)
  {
    if lengths == [] {
      SizedNothing(length, m, m);
    } else {
      var m1 := Serve(cfg, length, m).0;
      ServeSized(cfg, length, m);
      RunSized(cfg, length, lengths[1..], m1);
      SizedThen(length, m, m1, Run(cfg, lengths[1..], m1).0);
    }
  }

  /** On every run, with no bound on its length, `readBytes` is the total size of the packets
      read, modulo 2^64, and `maxDatagramSize` the largest size, or 0 when none was read. */
  lemma SizeCounters(cfg: Config, length: nat, lengths: seq<nat>, inputs: seq<Input>)
    requires SameLength(length, lengths)
    ensures var m' := Run(cfg, lengths, Initial(inputs)).0;
            && |m'.pending| <= |inputs|
            && var arrivals := Arrivals(length, Consumed(Initial(inputs), m'), 0);
            && m'.stats.readBytes == TotalBytes(arrivals) % U64
            && (forall a <- arrivals :: |a.packet.payload| <= m'.stats.maxDatagramSize)
            && (arrivals != [] ==> exists a <- arrivals :: |a.packet.payload| == m'.stats.maxDatagramSize)
            && (arrivals == [] ==> m'.stats.maxDatagramSize == 0)
  {
    RunSized(cfg, length, lengths, Initial(inputs));
    var arrivals := Arrivals(length, Consumed(Initial(inputs), Run(cfg, lengths, Initial(inputs)).0), 0);
    LargestSizeIsLargest(0, arrivals);
    if arrivals != [] && LargestSize(0, arrivals) == 0 {
      assert arrivals[0] in arrivals;
    }
  }

  // ---------------------------------------------------------------- duplicates

  function Duplicated(cfg: Config): Numbered -> bool {
    p => Twice(cfg, p)
  }

  function DuplicatedData(cfg: Config): Numbered -> bool {
    p => Twice(cfg, p) && IsChannelData(p.packet.payload)
  }

  lemma FetchKeepsDuplicates(cfg: Config, length: nat, m: Machine)
    ensures var s := Fetch(cfg, length, m).0.stats;
            s.duplicated == m.stats.duplicated && s.dataDuplicated == m.stats.dataDuplicated
    decreases |m.pending|
  {
    if m.pending != [] && m.pending[0].Arrival? && Surviving(cfg, length, m.pending[0], m.sequence) == [] {
      FetchKeepsDuplicates(cfg, length, Accept(cfg, length, m));
    }
  }

  lemma NoteCounts(cfg: Config, m: Machine, p: Numbered)
    requires Balanced(m) && m.stats.duplicated < Passing(m.stats)
    ensures var s := NoteDuplicate(cfg, m, p.packet, p.sequence).stats;
            && s.duplicated == m.stats.duplicated + CountIf(Duplicated(cfg), [p])
            && s.dataDuplicated == m.stats.dataDuplicated + CountIf(DuplicatedData(cfg), [p])
  {
    AddOne(m.stats.duplicated);
    BumpOne(m.stats.dataDuplicated, IsChannelData(p.packet.payload));
    assert [p][1..] == [];
  }

  /** Both counters grow by what a call takes from the network. */
  ghost predicate DuplicatesGrow(cfg: Config, m: Machine, m': Machine, taken: seq<Numbered>) {
    && m'.stats.duplicated == m.stats.duplicated + CountIf(Duplicated(cfg), taken)
    && m'.stats.dataDuplicated == m.stats.dataDuplicated + CountIf(DuplicatedData(cfg), taken)
  }

  lemma DuplicatesGrowThen(cfg: Config, m: Machine, m1: Machine, m2: Machine, a: seq<Numbered>, b: seq<Numbered>)
    requires DuplicatesGrow(cfg, m, m1, a) && DuplicatesGrow(cfg, m1, m2, b)
    ensures DuplicatesGrow(cfg, m, m2, a + b)
  {
    CountIfAppend(Duplicated(cfg), a, b);
    CountIfAppend(DuplicatedData(cfg), a, b);
  }

  lemma LookAheadDuplicates(cfg: Config, length: nat, m: Machine, current: Datagram, copies: seq<Datagram>)
    requires Balanced(m) && 2 * m.stats.reordered < Passing(m.stats)
    ensures DuplicatesGrow(cfg, m, LookAhead(cfg, length, m, current, copies).0, Found(Fetch(cfg, length, m).1))
  {
    var (m1, second) := Fetch(cfg, length, m);
    FetchKeepsDuplicates(cfg, length, m);
    FetchBalanced(cfg, length, m);
    if second.Got? {
      var data := IsChannelData(current.payload) || IsChannelData(second.packet.payload);
      ReorderBooks(m1.stats, data);
      NoteCounts(cfg, m1.(stats := CountReorder(m1.stats, data)), Found(second)[0]);
    }
  }

  lemma ServeDuplicates(cfg: Config, length: nat, m: Machine)
    requires Balanced(m)
    ensures DuplicatesGrow(cfg, m, Serve(cfg, length, m).0, Taken(cfg, length, m))
  {
    if m.ready == [] {
      var (m1, first) := Fetch(cfg, length, m);
      FetchKeepsDuplicates(cfg, length, m);
      FetchBalanced(cfg, length, m);
      if first.Got? {
        var m2 := NoteDuplicate(cfg, m1, first.packet, first.sequence);
        NoteCounts(cfg, m1, Found(first)[0]);
        NoteBalanced(cfg, m1, first.packet, first.sequence);
        if Every(cfg.reorderEvery, first.sequence) {
          var copies := Copies(first.packet, Every(cfg.duplicateEvery, first.sequence));
          LookAheadDuplicates(cfg, length, m2, first.packet, copies);
          DuplicatesGrowThen(cfg, m, m2, LookAhead(cfg, length, m2, first.packet, copies).0, Found(first), Found(Fetch(cfg, length, m2).1));
        }
      }
    }
  }

  lemma {:induction false} RunDuplicates(cfg: Config, length: nat, lengths: seq<nat>, m: Machine)
    requires Balanced(m) && |m.ready| <= 3 && SameLength(length, lengths)
    ensures DuplicatesGrow(cfg, m, Run(cfg, lengths, m).0, SurvivorsOf(cfg, length, lengths, m))
  {
    SurvivorsOfRun(cfg, length, lengths, m);
    if lengths != [] {
      var m1 := Serve(cfg, length, m).0;
      ServeConserves(cfg, length, m);
      ServeDuplicates(cfg, length, m);
      RunDuplicates(cfg, length, lengths[1..], m1);
      DuplicatesGrowThen(cfg, m, m1, Run(cfg, lengths[1..], m1).0, Taken(cfg, length, m), SurvivorsOf(cfg, length, lengths[1..], m1));
    }
  }

  /** Whatever the MTU and whichever reads fail, the duplicate counters are the numbers of
      survivors that are selected, and of those that are channel data. */
  lemma DuplicateCounters(cfg: Config, length: nat, lengths: seq<nat>, inputs: seq<Input>)
    requires |inputs| < U64 && SameLength(length, lengths)
    ensures var stats, s := Run(cfg, lengths, Initial(inputs)).0.stats, SurvivorsOf(cfg, length, lengths, Initial(inputs));
            && stats.duplicated == CountIf(Duplicated(cfg), s)
            && stats.dataDuplicated == CountIf(DuplicatedData(cfg), s)
  {
    RunDuplicates(cfg, length, lengths, Initial(inputs));
  }

  // ---------------------------------------------------------------- reorderings

  /** The pairs that greedy swapping exchanges. */
  function Pairs(cfg: Config, s: seq<Numbered>): seq<(Numbered, Numbered)> {
    if |s| >= 2 && Every(cfg.reorderEvery, s[0].sequence) then [(s[0], s[1])] + Pairs(cfg, s[2..])
    else if s == [] then []
    else Pairs(cfg, s[1..])
  }

  predicate PairHasData(pair: (Numbered, Numbered)) {
    IsChannelData(pair.0.packet.payload) || IsChannelData(pair.1.packet.payload)
  }

  lemma FetchKeepsReorders(cfg: Config, length: nat, m: Machine)
    ensures var s := Fetch(cfg, length, m).0.stats;
            s.reordered == m.stats.reordered && s.dataReordered == m.stats.dataReordered
    decreases |m.pending|
  {
    if m.pending != [] && m.pending[0].Arrival? && Surviving(cfg, length, m.pending[0], m.sequence) == [] {
      FetchKeepsReorders(cfg, length, Accept(cfg, length, m));
    }
  }

  ghost predicate ReordersGrow(m: Machine, m': Machine, pairs: seq<(Numbered, Numbered)>) {
    && m'.stats.reordered == m.stats.reordered + |pairs|
    && m'.stats.dataReordered == m.stats.dataReordered + CountIf(PairHasData, pairs)
  }

  lemma LookAheadReorders(cfg: Config, length: nat, m: Machine, current: Numbered, copies: seq<Datagram>)
    requires Balanced(m) && 2 * m.stats.reordered < Passing(m.stats)
    requires LookAhead(cfg, length, m, current.packet, copies).1.Delivered?
    ensures ReordersGrow(m, LookAhead(cfg, length, m, current.packet, copies).0, [(current, Found(Fetch(cfg, length, m).1)[0])])
  {
    var (m1, second) := Fetch(cfg, length, m);
    FetchKeepsReorders(cfg, length, m);
    FetchBalanced(cfg, length, m);
    AddOne(m1.stats.reordered);
    BumpOne(m1.stats.dataReordered, IsChannelData(current.packet.payload) || IsChannelData(second.packet.payload));
    assert [(current, Found(second)[0])][1..] == [];
  }

  /** What a successful call adds to the counters are the pairs in what it took, whatever follows. */
  lemma ServeReorders(cfg: Config, length: nat, m: Machine, s: seq<Numbered>) returns (pairs: seq<(Numbered, Numbered)>)
    requires Balanced(m) && Serve(cfg, length, m).1.Delivered?
    ensures ReordersGrow(m, Serve(cfg, length, m).0, pairs)
    ensures Pairs(cfg, Taken(cfg, length, m) + s) == pairs + Pairs(cfg, s)
  {
    pairs := [];
    if m.ready != [] {
      assert [] + s == s;
    } else {
      var (m1, first) := Fetch(cfg, length, m);
      var current := Found(first)[0];
      FetchKeepsReorders(cfg, length, m);
      FetchBalanced(cfg, length, m);
      NoteBalanced(cfg, m1, first.packet, first.sequence);
      if Every(cfg.reorderEvery, first.sequence) {
        var m2 := NoteDuplicate(cfg, m1, first.packet, first.sequence);
        var next := Found(Fetch(cfg, length, m2).1)[0];
        LookAheadReorders(cfg, length, m2, current, Copies(first.packet, Every(cfg.duplicateEvery, first.sequence)));
        assert ([current] + [next] + s)[2..] == s;
        pairs := [(current, next)];
      } else {
        assert ([current] + s)[1..] == s;
      }
    }
  }

  lemma {:induction false} RunReorders(cfg: Config, length: nat, lengths: seq<nat>, m: Machine)
    requires Balanced(m) && |m.ready| <= 3 && SameLength(length, lengths)
    requires AllDelivered(Run(cfg, lengths, m).1)
    ensures ReordersGrow(m, Run(cfg, lengths, m).0, Pairs(cfg, SurvivorsOf(cfg, length, lengths, m)))
  {
    SurvivorsOfRun(cfg, length, lengths, m);
    if lengths != [] {
      var (m1, o) := Serve(cfg, length, m);
      FirstDelivered(o, Run(cfg, lengths[1..], m1).1);
      ServeConserves(cfg, length, m);
      var rest := SurvivorsOf(cfg, length, lengths[1..], m1);
      var pairs := ServeReorders(cfg, length, m, rest);
      RunReorders(cfg, length, lengths[1..], m1);
      CountIfAppend(PairHasData, pairs, Pairs(cfg, rest));
    }
  }

  /** In an error-free run the reorder counters are the numbers of exchanged pairs, and of
      those with channel data in them. */
  lemma ReorderCounters(cfg: Config, length: nat, lengths: seq<nat>, inputs: seq<Input>)
    requires |inputs| < U64 && SameLength(length, lengths)
    requires AllDelivered(Run(cfg, lengths, Initial(inputs)).1)
    ensures var stats := Run(cfg, lengths, Initial(inputs)).0.stats;
            var pairs := Pairs(cfg, SurvivorsOf(cfg, length, lengths, Initial(inputs)));
            stats.reordered == |pairs| && stats.dataReordered == CountIf(PairHasData, pairs)
  {
    RunReorders(cfg, length, lengths, Initial(inputs));
  }
}
