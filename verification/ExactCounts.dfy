/** Closed forms for the impairer's drop, duplicate and reorder counters. */
module ExactCounts {
  import opened Impairment
  import opened StreamTransformer
  import opened ImpairmentLaws

  // ---------------------------------------------------------------- arithmetic

  predicate Divides(d: int, n: int)
    requires d > 0
  {
    n % d == 0
  }

  lemma QuotientStep(n: int, d: int)
    requires d > 0
    ensures n / d == (n - 1) / d + (if Divides(d, n) then 1 else 0)
  {
    var q, r := n / d, n % d;
    assert n == q * d + r;
    if r > 0 {
      QuotientIs(n - 1, d, q, r - 1);
    } else {
      assert (q - 1) * d == q * d - d;
      QuotientIs(n - 1, d, q - 1, d - 1);
    }
  }

  lemma QuotientIs(n: int, d: int, q: int, r: int)
    requires d > 0 && n == q * d + r && 0 <= r < d
    ensures n / d == q && n % d == r
  {
    var x := n / d - q;
    assert n == (n / d) * d + n % d;
    assert x * d == (n / d) * d - q * d;
    assert x >= 1 ==> x * d >= d;
    assert x <= -1 ==> x * d <= -d;
  }

  lemma QuotientMonotone(a: int, b: int, d: int)
    requires d > 0 && a <= b
    ensures a / d <= b / d
    decreases b - a
  {
    if a < b {
      QuotientMonotone(a, b - 1, d);
      QuotientStep(b, d);
    }
  }

  lemma MultipleOf(d: int, k: int)
    requires d > 0
    ensures Divides(d, d * k)
  {
    QuotientIs(d * k, d, k, 0);
  }

  /** The smallest common multiple from `k` on. */
  function FirstCommon(a: int, b: int, k: int): (m: int)
    requires a > 0 && b > 0 && 0 < k <= a * b
    ensures k <= m && Divides(a, m) && Divides(b, m)
    ensures forall j | k <= j < m :: !(Divides(a, j) && Divides(b, j))
    decreases a * b - k
  {
    if Divides(a, k) && Divides(b, k) then k
    else
      MultipleOf(a, b); MultipleOf(b, a);
      FirstCommon(a, b, k + 1)
  }

  function Lcm(a: int, b: int): (m: int)
    requires a > 0 && b > 0
    ensures m > 0 && Divides(a, m) && Divides(b, m)
  {
    assert 1 <= a * b;
    FirstCommon(a, b, 1)
  }

  lemma RemainderOfMultiples(d: int, n: int, m: int)
    requires d > 0 && m > 0 && Divides(d, n) && Divides(d, m)
    ensures Divides(d, n % m)
  {
    var q := n / m;
    assert n == d * (n / d) && m == d * (m / d) && n == q * m + n % m;
    assert n % m == d * (n / d - q * (m / d)) by {
      assert q * m == d * (q * (m / d)) by { MulSwap(q, d, m / d); }
    }
    MultipleOf(d, n / d - q * (m / d));
  }

  lemma MulSwap(a: int, b: int, c: int)
    ensures a * (b * c) == b * (a * c)
  {
  }

  lemma MultipleOfMultiple(d: int, m: int, n: int)
    requires d > 0 && m > 0 && Divides(d, m) && Divides(m, n)
    ensures Divides(d, n)
  {
    assert n == m * (n / m) && m == d * (m / d);
    assert n == d * ((m / d) * (n / m));
    MultipleOf(d, (m / d) * (n / m));
  }

  lemma CommonMultiples(a: int, b: int, n: int)
    requires a > 0 && b > 0
    ensures Divides(Lcm(a, b), n) <==> Divides(a, n) && Divides(b, n)
  {
    var m := Lcm(a, b);
    if Divides(m, n) {
      MultipleOfMultiple(a, m, n);
      MultipleOfMultiple(b, m, n);
    }
    if Divides(a, n) && Divides(b, n) {
      RemainderOfMultiples(a, n, m);
      RemainderOfMultiples(b, n, m);
      assert n % m == 0;
    }
  }

  // ---------------------------------------------------------------- drops and duplicates

  /** How many of the numbers 1 to `n` are multiples of `period`; none when it is off. */
  function Multiples(period: uint64, n: nat): nat {
    if period == 0 then 0 else n / period
  }

  /** How many of the numbers 1 to `n` are to be duplicated and are not dropped. */
  function Duplicates(cfg: Config, n: nat): int {
    if cfg.duplicateEvery == 0 then 0
    else if cfg.dropEvery == 0 then n / cfg.duplicateEvery
    else n / cfg.duplicateEvery - n / Lcm(cfg.dropEvery, cfg.duplicateEvery)
  }

  lemma MultiplesStep(period: uint64, n: uint64)
    requires n > 0
    ensures Multiples(period, n) == Multiples(period, n - 1) + (if Every(period, n) then 1 else 0)
  {
    if period > 0 {
      QuotientStep(n, period);
    }
  }

  lemma DuplicatesStep(cfg: Config, n: uint64)
    requires n > 0
    ensures Duplicates(cfg, n) == Duplicates(cfg, n - 1)
                                  + (if Every(cfg.duplicateEvery, n) && !Every(cfg.dropEvery, n) then 1 else 0)
  {
    if cfg.duplicateEvery > 0 {
      QuotientStep(n, cfg.duplicateEvery);
      if cfg.dropEvery > 0 {
        QuotientStep(n, Lcm(cfg.dropEvery, cfg.duplicateEvery));
        CommonMultiples(cfg.dropEvery, cfg.duplicateEvery, n);
      }
    }
  }

  lemma AccountDrops(cfg: Config, s: Stats, sequence: uint64, payload: seq<Byte>)
    requires Books(s) && s.readPackets + 1 < U64 && cfg.mtu <= 0
    ensures var s' := Account(cfg, s, sequence, payload);
            && s'.mtuDropped == s.mtuDropped
            && s'.dropped == s.dropped + (if Every(cfg.dropEvery, sequence) then 1 else 0)
  {
    AddOne(s.dropped);
  }

  lemma AcceptDrops(cfg: Config, length: nat, m: Machine)
    requires Balanced(m) && cfg.mtu <= 0 && m.pending != [] && m.pending[0].Arrival?
    requires m.stats.mtuDropped == 0 && m.stats.dropped == Multiples(cfg.dropEvery, m.sequence)
    ensures var first := Accept(cfg, length, m);
            && first.stats.mtuDropped == 0 && first.stats.dropped == Multiples(cfg.dropEvery, first.sequence)
            && (Surviving(cfg, length, m.pending[0], m.sequence) == [] <==> Every(cfg.dropEvery, first.sequence))
  {
    AcceptBalanced(cfg, length, m);
    var sequence := m.sequence + 1;
    AccountDrops(cfg, m.stats, sequence, Truncate(m.pending[0].datagram, length).payload);
    MultiplesStep(cfg.dropEvery, sequence);
  }

  /** Before the packet just fetched, everything since the last call was dropped. */
  lemma {:induction false} FetchDrops(cfg: Config, length: nat, m: Machine)
    requires Balanced(m) && cfg.mtu <= 0
    requires m.stats.mtuDropped == 0 && m.stats.dropped == Multiples(cfg.dropEvery, m.sequence)
    ensures var (m', f) := Fetch(cfg, length, m);
            && m'.stats.mtuDropped == 0 && m'.stats.dropped == Multiples(cfg.dropEvery, m'.sequence)
            && (f.Got? ==> m'.sequence == f.sequence > 0 && !Every(cfg.dropEvery, f.sequence))
    decreases |m.pending|
  {
    if m.pending != [] && m.pending[0].Arrival? {
      var first := Accept(cfg, length, m);
      AcceptBalanced(cfg, length, m);
      AcceptDrops(cfg, length, m);
      if Every(cfg.dropEvery, first.sequence) {
        FetchDrops(cfg, length, first);
      }
    }
  }

  lemma {:induction false} FetchDuplicates(cfg: Config, length: nat, m: Machine)
    requires Balanced(m) && cfg.mtu <= 0
    requires m.stats.mtuDropped == 0 && m.stats.dropped == Multiples(cfg.dropEvery, m.sequence)
    ensures var (m', f) := Fetch(cfg, length, m);
            |Found(f)| <= m'.sequence && Duplicates(cfg, m.sequence) == Duplicates(cfg, m'.sequence - |Found(f)|)
    decreases |m.pending|
  {
    if m.pending != [] && m.pending[0].Arrival? {
      var first := Accept(cfg, length, m);
      AcceptBalanced(cfg, length, m);
      AcceptDrops(cfg, length, m);
      if Every(cfg.dropEvery, first.sequence) {
        DuplicatesStep(cfg, first.sequence);
        FetchDuplicates(cfg, length, first);
      }
    }
  }

  /** The closed forms, which hold between calls. */
  predicate Tallied(cfg: Config, m: Machine) {
    && m.stats.mtuDropped == 0
    && m.stats.dropped == Multiples(cfg.dropEvery, m.sequence)
    && m.stats.duplicated == Duplicates(cfg, m.sequence)
  }

  /** A fetch followed by the counting of its duplicate, in either place it occurs. */
  lemma NotedTally(cfg: Config, length: nat, m: Machine)
    requires Balanced(m) && cfg.mtu <= 0 && Tallied(cfg, m)
    ensures var (m', f) := Fetch(cfg, length, m);
            if f.Got? then Tallied(cfg, NoteDuplicate(cfg, m', f.packet, f.sequence)) else Tallied(cfg, m')
  {
    var (m', f) := Fetch(cfg, length, m);
    FetchDrops(cfg, length, m);
    FetchDuplicates(cfg, length, m);
    FetchBalanced(cfg, length, m);
    if f.Got? {
      NotedDuplicates(cfg, m', f.packet, f.sequence);
    }
  }

  lemma NotedDuplicates(cfg: Config, m: Machine, packet: Datagram, sequence: uint64)
    requires Balanced(m) && m.stats.duplicated < Passing(m.stats) && sequence > 0 && !Every(cfg.dropEvery, sequence)
    requires m.stats.mtuDropped == 0 && m.sequence == sequence
    requires m.stats.dropped == Multiples(cfg.dropEvery, sequence) && m.stats.duplicated == Duplicates(cfg, sequence - 1)
    ensures Tallied(cfg, NoteDuplicate(cfg, m, packet, sequence))
  {
    DuplicatesStep(cfg, sequence);
    NoteBalanced(cfg, m, packet, sequence);
  }

  lemma {:induction false} NoteAfterReorder(cfg: Config, m: Machine, data: bool, packet: Datagram, sequence: uint64)
    requires Tallied(cfg, NoteDuplicate(cfg, m, packet, sequence))
    ensures Tallied(cfg, NoteDuplicate(cfg, m.(stats := CountReorder(m.stats, data)), packet, sequence))
  {
  }

  lemma ServeTally(cfg: Config, length: nat, m: Machine)
    requires Balanced(m) && |m.ready| <= 3 && cfg.mtu <= 0 && Tallied(cfg, m)
    ensures Tallied(cfg, Serve(cfg, length, m).0)
  {
    if m.ready == [] {
      NotedTally(cfg, length, m);
      FetchBalanced(cfg, length, m);
      var (m1, first) := Fetch(cfg, length, m);
      if first.Got? && Every(cfg.reorderEvery, first.sequence) {
        NoteBalanced(cfg, m1, first.packet, first.sequence);
        var m2 := NoteDuplicate(cfg, m1, first.packet, first.sequence);
        LookAheadTally(cfg, length, m2, first.packet, Copies(first.packet, Every(cfg.duplicateEvery, first.sequence)));
      }
    }
  }

  lemma LookAheadTally(cfg: Config, length: nat, m: Machine, current: Datagram, copies: seq<Datagram>)
    requires Balanced(m) && cfg.mtu <= 0 && Tallied(cfg, m)
    ensures Tallied(cfg, LookAhead(cfg, length, m, current, copies).0)
  {
    NotedTally(cfg, length, m);
    var (m1, second) := Fetch(cfg, length, m);
    if second.Got? {
      var data := IsChannelData(current.payload) || IsChannelData(second.packet.payload);
      NoteAfterReorder(cfg, m1, data, second.packet, second.sequence);
    }
  }

  lemma {:induction false} RunTally(cfg: Config, lengths: seq<nat>, m: Machine)
    requires Balanced(m) && |m.ready| <= 3 && cfg.mtu <= 0 && Tallied(cfg, m)
    ensures Tallied(cfg, Run(cfg, lengths, m).0)
  {
    if lengths != [] {
      ServeConserves(cfg, lengths[0], m);
      ServeTally(cfg, lengths[0], m);
      RunTally(cfg, lengths[1..], Serve(cfg, lengths[0], m).0);
    }
  }

  /** Without an MTU limit, the drop and duplicate counters are functions of the number of
      packets read alone, whatever was read, in whatever calls, and whichever reads failed. */
  lemma DropAndDuplicateCounts(cfg: Config, lengths: seq<nat>, inputs: seq<Input>)
    requires |inputs| < U64 && cfg.mtu <= 0 && cfg.dropEvery > 0 && cfg.duplicateEvery > 0
    ensures var stats := Run(cfg, lengths, Initial(inputs)).0.stats;
            var s, d, u := stats.readPackets, cfg.dropEvery, cfg.duplicateEvery;
            stats.dropped == s / d && stats.duplicated == s / u - s / Lcm(d, u)
  {
    RunTally(cfg, lengths, Initial(inputs));
    Conservation(cfg, lengths, inputs);
  }

  // ---------------------------------------------------------------- reorderings

  lemma MultiplesGrow(period: uint64, a: uint64, b: uint64)
    requires a <= b
    ensures Multiples(period, a) <= Multiples(period, b)
    ensures a < b && Every(period, b) ==> Multiples(period, a) < Multiples(period, b)
  {
    if period > 0 {
      QuotientMonotone(a, b, period);
      if a < b {
        QuotientMonotone(a, b - 1, period);
        QuotientStep(b, period);
      }
    }
  }

  lemma ServeReorderBound(cfg: Config, length: nat, m: Machine)
    requires Balanced(m) && m.stats.reordered <= Multiples(cfg.reorderEvery, m.sequence)
    ensures var m' := Serve(cfg, length, m).0; m'.stats.reordered <= Multiples(cfg.reorderEvery, m'.sequence)
  {
    if m.ready == [] {
      FetchBalanced(cfg, length, m);
      FetchNumbers(cfg, length, m);
      var (m1, first) := Fetch(cfg, length, m);
      MultiplesGrow(cfg.reorderEvery, m.sequence, m1.sequence);
      if first.Got? && Every(cfg.reorderEvery, first.sequence) {
        NoteBalanced(cfg, m1, first.packet, first.sequence);
        var m2 := NoteDuplicate(cfg, m1, first.packet, first.sequence);
        LookAheadReorderBound(cfg, length, m2, first.packet, Copies(first.packet, Every(cfg.duplicateEvery, first.sequence)));
      }
    }
  }

  lemma LookAheadReorderBound(cfg: Config, length: nat, m: Machine, current: Datagram, copies: seq<Datagram>)
    requires Balanced(m) && m.ready == [] && 2 * m.stats.reordered < Passing(m.stats)
    requires m.stats.reordered < Multiples(cfg.reorderEvery, m.sequence)
    ensures var m' := LookAhead(cfg, length, m, current, copies).0;
            m'.stats.reordered <= Multiples(cfg.reorderEvery, m'.sequence)
  {
    LookAheadBalanced(cfg, length, m, current, copies);
    LookAheadNumbers(cfg, length, m, current, copies);
    MultiplesGrow(cfg.reorderEvery, m.sequence, LookAhead(cfg, length, m, current, copies).0.sequence);
  }

  lemma {:induction false} FetchNumbers(cfg: Config, length: nat, m: Machine)
    ensures var (m', f) := Fetch(cfg, length, m); f.Got? ==> f.sequence == m'.sequence
    decreases |m.pending|
  {
    if m.pending != [] && m.pending[0].Arrival? {
      FetchNumbers(cfg, length, Accept(cfg, length, m));
    }
  }

  lemma LookAheadNumbers(cfg: Config, length: nat, m: Machine, current: Datagram, copies: seq<Datagram>)
    requires Balanced(m)
    ensures m.sequence <= LookAhead(cfg, length, m, current, copies).0.sequence == Fetch(cfg, length, m).0.sequence
  {
    FetchBalanced(cfg, length, m);
  }

  lemma {:induction false} RunReorderBound(cfg: Config, lengths: seq<nat>, m: Machine)
    requires Balanced(m) && |m.ready| <= 3 && m.stats.reordered <= Multiples(cfg.reorderEvery, m.sequence)
    ensures var m' := Run(cfg, lengths, m).0; m'.stats.reordered <= Multiples(cfg.reorderEvery, m'.sequence)
  {
    if lengths != [] {
      ServeConserves(cfg, lengths[0], m);
      ServeReorderBound(cfg, lengths[0], m);
      RunReorderBound(cfg, lengths[1..], Serve(cfg, lengths[0], m).0);
    }
  }

  /** On every run there are at most as many swaps as selected numbers and as pairs of survivors. */
  lemma ReorderBound(cfg: Config, lengths: seq<nat>, inputs: seq<Input>)
    requires |inputs| < U64
    ensures var stats := Run(cfg, lengths, Initial(inputs)).0.stats;
            && stats.reordered <= Multiples(cfg.reorderEvery, stats.readPackets)
            && 2 * stats.reordered <= stats.readPackets - stats.mtuDropped - stats.dropped
  {
    RunReorderBound(cfg, lengths, Initial(inputs));
    Conservation(cfg, lengths, inputs);
  }

  /** The swaps in the first `n` packets of an undisturbed stream: a period of one pairs up
      everything, a longer one swaps each selected packet. */
  function Swaps(period: uint64, n: nat): nat {
    if period == 1 then n / 2 else Multiples(period, n)
  }

  /** Where a call can stop: never with a selected packet waiting for its successor. */
  predicate Resting(period: uint64, n: uint64) {
    if period == 1 then n % 2 == 0 else n == 0 || !Every(period, n)
  }

  predicate Paired(cfg: Config, m: Machine) {
    m.stats.reordered == Swaps(cfg.reorderEvery, m.sequence) && Resting(cfg.reorderEvery, m.sequence)
  }

  lemma SwapsStep(period: uint64, n: uint64)
    requires Resting(period, n) && n + 2 < U64
    ensures if Every(period, n + 1) then Swaps(period, n + 2) == Swaps(period, n) + 1 && Resting(period, n + 2)
            else Swaps(period, n + 1) == Swaps(period, n) && Resting(period, n + 1)
  {
    MultiplesStep(period, n + 1);
    MultiplesStep(period, n + 2);
    if period > 1 && Every(period, n + 1) {
      QuotientIs(n + 2, period, (n + 1) / period, 1);
    }
  }

  lemma NothingFiltered(cfg: Config, length: nat, m: Machine)
    requires Balanced(m) && cfg.mtu <= 0 && cfg.dropEvery == 0 && Fetch(cfg, length, m).1.Got?
    ensures var (m', f) := Fetch(cfg, length, m);
            && Balanced(m') && m'.sequence == f.sequence == m.sequence + 1
            && m'.stats.reordered == m.stats.reordered
            && m'.stats.duplicated < Passing(m'.stats) && 2 * m'.stats.reordered < Passing(m'.stats)
  {
    FetchBalanced(cfg, length, m);
    AcceptBalanced(cfg, length, m);
  }

  lemma LookAheadPairs(cfg: Config, length: nat, m: Machine, current: Datagram, copies: seq<Datagram>)
    requires Balanced(m) && cfg.mtu <= 0 && cfg.dropEvery == 0 && m.ready == [] && 2 * m.stats.reordered < Passing(m.stats)
    requires LookAhead(cfg, length, m, current, copies).1.Delivered?
    ensures var m' := LookAhead(cfg, length, m, current, copies).0;
            m'.sequence == m.sequence + 1 && m'.stats.reordered == m.stats.reordered + 1 && Unwrapped(m')
  {
    NothingFiltered(cfg, length, m);
    LookAheadBalanced(cfg, length, m, current, copies);
    LookAheadNumbers(cfg, length, m, current, copies);
  }

  /** The next packet alone, or with its successor when it is selected. */
  lemma PairedNext(cfg: Config, m: Machine, m': Machine)
    requires Paired(cfg, m) && m.sequence < m'.sequence
    requires var pair := Every(cfg.reorderEvery, m.sequence + 1);
             && m'.sequence == m.sequence + (if pair then 2 else 1)
             && m'.stats.reordered == m.stats.reordered + (if pair then 1 else 0)
    ensures Paired(cfg, m')
  {
    if Every(cfg.reorderEvery, m.sequence + 1) {
      SwapsStep(cfg.reorderEvery, m.sequence);
    } else {
      MultiplesStep(cfg.reorderEvery, m.sequence + 1);
    }
  }

  lemma ServePairs(cfg: Config, length: nat, m: Machine)
    requires Balanced(m) && cfg.mtu <= 0 && cfg.dropEvery == 0 && Paired(cfg, m)
    requires Serve(cfg, length, m).1.Delivered?
    ensures Paired(cfg, Serve(cfg, length, m).0)
  {
    if m.ready == [] {
      NothingFiltered(cfg, length, m);
      var (m1, first) := Fetch(cfg, length, m);
      NoteBalanced(cfg, m1, first.packet, first.sequence);
      if Every(cfg.reorderEvery, first.sequence) {
        var m2 := NoteDuplicate(cfg, m1, first.packet, first.sequence);
        LookAheadPairs(cfg, length, m2, first.packet, Copies(first.packet, Every(cfg.duplicateEvery, first.sequence)));
      }
      PairedNext(cfg, m, Serve(cfg, length, m).0);
    }
  }

  lemma {:induction false} RunPairs(cfg: Config, lengths: seq<nat>, m: Machine)
    requires Balanced(m) && |m.ready| <= 3 && cfg.mtu <= 0 && cfg.dropEvery == 0 && Paired(cfg, m)
    requires AllDelivered(Run(cfg, lengths, m).1)
    ensures Paired(cfg, Run(cfg, lengths, m).0)
  {
    if lengths != [] {
      var (m1, o) := Serve(cfg, lengths[0], m);
      FirstDelivered(o, Run(cfg, lengths[1..], m1).1);
      ServeConserves(cfg, lengths[0], m);
      ServePairs(cfg, lengths[0], m);
      RunPairs(cfg, lengths[1..], m1);
    }
  }

  /** With nothing dropped and no read failing, the number of swaps is exact. */
  lemma ReorderCount(cfg: Config, lengths: seq<nat>, inputs: seq<Input>)
    requires |inputs| < U64 && cfg.mtu <= 0 && cfg.dropEvery == 0
    requires AllDelivered(Run(cfg, lengths, Initial(inputs)).1)
    ensures var stats := Run(cfg, lengths, Initial(inputs)).0.stats;
            && stats.reordered == Swaps(cfg.reorderEvery, stats.readPackets)
            && Resting(cfg.reorderEvery, stats.readPackets)
  {
    RunPairs(cfg, lengths, Initial(inputs));
    Conservation(cfg, lengths, inputs);
  }
}
