/** How long the impairer sleeps, and what its delay counters report. */
module Pacing {
  import opened Impairment
  import opened StreamTransformer
  import opened ExactCounts

  // ---------------------------------------------------------------- from a run to its waits

  /** The part of the state that `wait` changes in the passing of time. */
  datatype Clock = Clock(slept: int, minMillis: int64, maxMillis: int64)

  function ClockOf(m: Machine): Clock {
    Clock(m.slept, m.stats.minDelayMillis, m.stats.maxDelayMillis)
  }

  function WaitFor(cfg: Config, p: Numbered): int64 {
    Wait(cfg, p.sequence, |p.packet.payload|)
  }

  function Tick(clock: Clock, wait: int64): Clock {
    if wait <= 0 then clock else
      Clock(clock.slept + wait, LowerMillis(clock.minMillis, wait / MILLISECOND), HigherMillis(clock.maxMillis, wait / MILLISECOND))
  }

  function TickAll(cfg: Config, clock: Clock, s: seq<Numbered>): Clock
    decreases s
  {
    if s == [] then clock else TickAll(cfg, Tick(clock, WaitFor(cfg, s[0])), s[1..])
  }

  lemma {:induction false} TickAllAppend(cfg: Config, clock: Clock, s: seq<Numbered>, t: seq<Numbered>)
    ensures TickAll(cfg, clock, s + t) == TickAll(cfg, TickAll(cfg, clock, s), t)
    decreases s
  {
    if s == [] {
      assert s + t == t;
    } else {
      assert (s + t)[1..] == s[1..] + t;
      TickAllAppend(cfg, Tick(clock, WaitFor(cfg, s[0])), s[1..], t);
    }
  }

  lemma AcceptTicks(cfg: Config, length: nat, m: Machine)
    requires m.pending != [] && m.pending[0].Arrival?
    ensures ClockOf(Accept(cfg, length, m)) == TickAll(cfg, ClockOf(m), Surviving(cfg, length, m.pending[0], m.sequence))
  {
  }

  lemma {:induction false} FetchTicks(cfg: Config, length: nat, m: Machine)
    ensures var (m', f) := Fetch(cfg, length, m); ClockOf(m') == TickAll(cfg, ClockOf(m), Found(f))
    decreases |m.pending|
  {
    if m.pending != [] && m.pending[0].Arrival? {
      AcceptTicks(cfg, length, m);
      if Surviving(cfg, length, m.pending[0], m.sequence) == [] {
        FetchTicks(cfg, length, Accept(cfg, length, m));
      }
    }
  }

  lemma ServeTicks(cfg: Config, length: nat, m: Machine)
    ensures ClockOf(Serve(cfg, length, m).0) == TickAll(cfg, ClockOf(m), Taken(cfg, length, m))
  {
    if m.ready == [] {
      FetchTicks(cfg, length, m);
      var (m1, first) := Fetch(cfg, length, m);
      if first.Got? && Every(cfg.reorderEvery, first.sequence) {
        var m2 := NoteDuplicate(cfg, m1, first.packet, first.sequence);
        FetchTicks(cfg, length, m2);
        TickAllAppend(cfg, ClockOf(m), Found(first), Found(Fetch(cfg, length, m2).1));
      }
    }
  }

  /** On every run, failing reads included, the sleeps and the delay counters are those of
      the surviving packets in order of arrival, whatever was reordered or duplicated. */
  lemma {:induction false} RunTicks(cfg: Config, length: nat, lengths: seq<nat>, m: Machine)
    requires SameLength(length, lengths)
    ensures ClockOf(Run(cfg, lengths, m).0) == TickAll(cfg, ClockOf(m), SurvivorsOf(cfg, length, lengths, m))
  {
    SurvivorsOfRun(cfg, length, lengths, m);
    if lengths != [] {
      var m1 := Serve(cfg, length, m).0;
      ServeTicks(cfg, length, m);
      RunTicks(cfg, length, lengths[1..], m1);
      TickAllAppend(cfg, ClockOf(m), Taken(cfg, length, m), SurvivorsOf(cfg, length, lengths[1..], m1));
    }
  }

  // ---------------------------------------------------------------- exact arithmetic

  const MAX_DATAGRAM := 65535

  /** Delays below 146 years. */
  predicate Moderate(cfg: Config) {
    -0x2000_0000_0000_0000 <= cfg.delay <= 0x2000_0000_0000_0000 && cfg.jitter <= 0x2000_0000_0000_0000
  }

  predicate Ordinary(s: seq<Numbered>) {
    forall i | 0 <= i < |s| :: |s[i].packet.payload| <= MAX_DATAGRAM
  }

  /** Nanoseconds for `size` bytes at `bandwidth` bits per second, rounded down. */
  function SendTime(cfg: Config, size: nat): nat {
    if cfg.bandwidth == 0 then 0 else size * 8 * SECOND / cfg.bandwidth
  }

  lemma SendTimeBound(bandwidth: int, bits: nat)
    requires bandwidth > 0
    ensures bandwidth * (bits / bandwidth) <= bits < bandwidth * (bits / bandwidth) + bandwidth
  {
    assert bits == bandwidth * (bits / bandwidth) + bits % bandwidth;
  }

  lemma SendTimeAtMost(bandwidth: int, bits: nat)
    requires bandwidth > 0
    ensures 0 <= bits / bandwidth <= bits
  {
    QuotientMonotone(0, bits, bandwidth);
    SendTimeBound(bandwidth, bits);
    AtLeastOnce(bandwidth, bits / bandwidth);
  }

  lemma AtLeastOnce(n: int, q: int)
    requires n >= 1 && q >= 0
    ensures n * q >= q
  {
  }

  /** The 64-bit product of the source is exact for every datagram that UDP can carry. */
  lemma TransmissionIsExact(cfg: Config, size: nat)
    requires size <= MAX_DATAGRAM
    ensures Transmission(cfg, size) == SendTime(cfg, size) <= 524_280_000_000_000
  {
    if cfg.bandwidth > 0 {
      var bits := size * 8 * SECOND;
      SendTimeAtMost(cfg.bandwidth, bits);
      assert bits <= 524_280_000_000_000;
      assert size % U64 == size && size * 8 % U64 == size * 8 && bits % U64 == bits;
      assert (bits / cfg.bandwidth) % U64 == bits / cfg.bandwidth;
    }
  }

  lemma JitterBound(cfg: Config, sequence: uint64)
    ensures if cfg.jitter > 0 then 0 - cfg.jitter <= JitterOffset(cfg, sequence) * MILLISECOND <= cfg.jitter
            else JitterOffset(cfg, sequence) == 0
  {
    if cfg.jitter > 0 {
      var j := cfg.jitter / MILLISECOND;
      assert j * MILLISECOND <= cfg.jitter;
      assert JitterSteps(cfg) == 2 * j + 1;
      assert -j <= JitterOffset(cfg, sequence) <= j;
    }
  }

  lemma Signed(x: int)
    requires -I63 <= x < I63
    ensures ToInt64(x) == x
  {
    if x < 0 {
      assert x % U64 == x + U64;
    }
  }

  /** With moderate settings no step of the delay computation wraps. */
  lemma WaitIsExact(cfg: Config, sequence: uint64, size: nat)
    requires Moderate(cfg) && size <= MAX_DATAGRAM
    ensures Wait(cfg, sequence, size) == cfg.delay + JitterOffset(cfg, sequence) * MILLISECOND + SendTime(cfg, size)
  {
    JitterBound(cfg, sequence);
    TransmissionIsExact(cfg, size);
    var shifted := cfg.delay + JitterOffset(cfg, sequence) * MILLISECOND;
    Signed(shifted);
    Signed(shifted + SendTime(cfg, size));
  }

  /** The wait written out: the fixed delay, a whole number of milliseconds between -J and J
      that counts up with the packet's number, and eight bits a byte at the given bandwidth. */
  lemma WaitFormula(cfg: Config, sequence: uint64, size: nat)
    requires Moderate(cfg) && size <= MAX_DATAGRAM
    ensures var j: int := cfg.jitter / 1_000_000;
            Wait(cfg, sequence, size)
            == cfg.delay
               + (if cfg.jitter > 0 then (sequence % (2 * j + 1) - j) * 1_000_000 else 0)
               + (if cfg.bandwidth > 0 then size * 8 * 1_000_000_000 / cfg.bandwidth else 0)
  {
    WaitIsExact(cfg, sequence, size);
  }

  // ---------------------------------------------------------------- totals

  /** Total sleep for a list of packets. */
  function Sleep(cfg: Config, s: seq<Numbered>): nat {
    if s == [] then 0 else Positive(WaitFor(cfg, s[0])) + Sleep(cfg, s[1..])
  }

  function Bytes(s: seq<Numbered>): nat {
    if s == [] then 0 else |s[0].packet.payload| + Bytes(s[1..])
  }

  function SendTimes(cfg: Config, s: seq<Numbered>): nat {
    if s == [] then 0 else SendTime(cfg, |s[0].packet.payload|) + SendTimes(cfg, s[1..])
  }

  lemma {:induction false} TickAllSleeps(cfg: Config, clock: Clock, s: seq<Numbered>)
    ensures TickAll(cfg, clock, s).slept == clock.slept + Sleep(cfg, s)
    decreases s
  {
    if s != [] {
      TickAllSleeps(cfg, Tick(clock, WaitFor(cfg, s[0])), s[1..]);
    }
  }

  lemma OneMore(n: int, x: int)
    ensures (n + 1) * x == n * x + x
  {
  }

  lemma PacingStep(bandwidth: int, t: int, w: int, n: int, first: int, others: int)
    requires bandwidth * t <= first < bandwidth * t + bandwidth
    requires bandwidth * w <= others
    requires others < bandwidth * (w + n) || n == w == others == 0
    ensures bandwidth * (t + w) <= first + others < bandwidth * (t + w + (n + 1))
  {
    assert bandwidth * (t + w) == bandwidth * t + bandwidth * w;
    assert bandwidth * (t + w + (n + 1)) == bandwidth * t + bandwidth + bandwidth * (w + n);
  }

  predicate NoNegativeWait(cfg: Config, s: seq<Numbered>) {
    forall i | 0 <= i < |s| :: WaitFor(cfg, s[i]) >= 0
  }

  /** Jitter offsets of a list of packets, in nanoseconds. */
  function Shifts(cfg: Config, s: seq<Numbered>): int {
    if s == [] then 0 else JitterOffset(cfg, s[0].sequence) * MILLISECOND + Shifts(cfg, s[1..])
  }

  lemma {:induction false} SleepSplits(cfg: Config, s: seq<Numbered>)
    requires Moderate(cfg) && Ordinary(s) && NoNegativeWait(cfg, s)
    ensures Sleep(cfg, s) == |s| * cfg.delay + SendTimes(cfg, s) + Shifts(cfg, s)
  {
    if s != [] {
      assert WaitFor(cfg, s[0]) >= 0;
      SleepSplits(cfg, s[1..]);
      WaitIsExact(cfg, s[0].sequence, |s[0].packet.payload|);
      OneMore(|s| - 1, cfg.delay);
    }
  }

  lemma {:induction false} SendTimesBound(cfg: Config, s: seq<Numbered>)
    requires cfg.bandwidth > 0
    ensures cfg.bandwidth * SendTimes(cfg, s) <= 8 * SECOND * Bytes(s)
    ensures s != [] ==> 8 * SECOND * Bytes(s) < cfg.bandwidth * (SendTimes(cfg, s) + |s|)
  {
    if s != [] {
      var size, rest := |s[0].packet.payload|, s[1..];
      SendTimesBound(cfg, rest);
      SendTimeBound(cfg.bandwidth, size * 8 * SECOND);
      PacingStep(cfg.bandwidth, SendTime(cfg, size), SendTimes(cfg, rest), |rest|, size * 8 * SECOND, 8 * SECOND * Bytes(rest));
    }
  }

  lemma {:induction false} WithoutJitter(cfg: Config, s: seq<Numbered>)
    requires cfg.jitter <= 0 && cfg.delay >= 0 && Moderate(cfg) && Ordinary(s)
    ensures Shifts(cfg, s) == 0 && NoNegativeWait(cfg, s)
  {
    if s != [] {
      WithoutJitter(cfg, s[1..]);
      forall i | 0 <= i < |s|
        ensures WaitFor(cfg, s[i]) >= 0
      {
        WaitIsExact(cfg, s[i].sequence, |s[i].packet.payload|);
      }
    }
  }

  /** A sleep that exceeds the fixed delays of the packets by the time the bandwidth allows
      for their bytes, less one nanosecond a packet at most. */
  ghost predicate Paced(cfg: Config, s: seq<Numbered>, slept: int) {
    var queueing := slept - |s| * cfg.delay;
    && cfg.bandwidth * queueing <= 8 * SECOND * Bytes(s)
    && (s != [] ==> 8 * SECOND * Bytes(s) < cfg.bandwidth * (queueing + |s|))
  }

  /** Without jitter every list of packets is paced. */
  lemma PacingBound(cfg: Config, s: seq<Numbered>)
    requires cfg.jitter <= 0 && cfg.delay >= 0 && cfg.bandwidth > 0 && Moderate(cfg) && Ordinary(s)
    ensures Paced(cfg, s, Sleep(cfg, s))
  {
    WithoutJitter(cfg, s);
    SleepSplits(cfg, s);
    SendTimesBound(cfg, s);
  }

  // ---------------------------------------------------------------- jitter

  lemma WindowRemainder(start: nat, steps: nat, l: nat)
    requires 0 < steps && l < steps
    ensures (start + l) % steps == var r := start % steps + l; if r < steps then r else r - steps
  {
    var q, r := start / steps, start % steps + l;
    if r < steps {
      QuotientIs(start + l, steps, q, r);
    } else {
      OneMore(q, steps);
      QuotientIs(start + l, steps, q + 1, r - steps);
    }
  }

  /** The offset of the `k`-th packet of a window. */
  function OffsetIn(cfg: Config, start: uint64, k: nat): int
    requires start + k < U64
  {
    JitterOffset(cfg, start + k)
  }

  lemma OffsetFormula(cfg: Config, start: uint64, k: nat)
    requires cfg.jitter > 0 && k < JitterSteps(cfg) && start + k < U64
    ensures var j, steps := cfg.jitter / MILLISECOND, JitterSteps(cfg);
            var r := start % steps + k;
            OffsetIn(cfg, start, k) == (if r < steps then r else r - steps) - j
  {
    WindowRemainder(start, JitterSteps(cfg), k);
  }

  /** Over one full window the offsets are distinct and take every value from -J to J. */
  lemma JitterIsBijective(cfg: Config, start: uint64, value: int)
    requires cfg.jitter > 0 && start + JitterSteps(cfg) <= U64
    requires -(cfg.jitter / MILLISECOND as int) <= value <= cfg.jitter / MILLISECOND
    ensures exists k: nat | k < JitterSteps(cfg) :: OffsetIn(cfg, start, k) == value
    ensures forall k: nat, l: nat | k < JitterSteps(cfg) && l < JitterSteps(cfg) ::
              OffsetIn(cfg, start, k) == OffsetIn(cfg, start, l) ==> k == l
  {
    var steps, target, r := JitterSteps(cfg), value + cfg.jitter / MILLISECOND, start % JitterSteps(cfg);
    var k := if target >= r then target - r else target - r + steps;
    OffsetFormula(cfg, start, k);
    assert OffsetIn(cfg, start, k) == value;
    forall k: nat, l: nat | k < steps && l < steps
      ensures OffsetIn(cfg, start, k) == OffsetIn(cfg, start, l) ==> k == l
    {
      OffsetFormula(cfg, start, k);
      OffsetFormula(cfg, start, l);
    }
  }

  function SumOfRemainders(steps: nat, start: nat, n: nat): int
    requires steps > 0
    decreases n
  {
    if n == 0 then 0 else start % steps + SumOfRemainders(steps, start + 1, n - 1)
  }

  lemma {:induction false} SumSplitsLast(steps: nat, start: nat, n: nat)
    requires steps > 0 && n > 0
    ensures SumOfRemainders(steps, start, n) == SumOfRemainders(steps, start, n - 1) + (start + n - 1) % steps
    decreases n
  {
    if n > 1 {
      SumSplitsLast(steps, start + 1, n - 1);
    }
  }

  lemma {:induction false} WindowFromZero(steps: nat, n: nat)
    requires n <= steps && steps > 0
    ensures 2 * SumOfRemainders(steps, 0, n) == n * (n - 1)
  {
    if n > 0 {
      WindowFromZero(steps, n - 1);
      SumSplitsLast(steps, 0, n);
      QuotientIs(n - 1, steps, 0, n - 1);
      assert n * (n - 1) == (n - 1) * (n - 2) + 2 * (n - 1);
    }
  }

  /** Moving a full window by one replaces a remainder by an equal one. */
  lemma {:induction false} WindowSum(steps: nat, start: nat)
    requires steps > 0
    ensures 2 * SumOfRemainders(steps, start, steps) == steps * (steps - 1)
  {
    if start == 0 {
      WindowFromZero(steps, steps);
    } else {
      WindowSum(steps, start - 1);
      SumSplitsLast(steps, start, steps);
      assert SumOfRemainders(steps, start - 1, steps) == (start - 1) % steps + SumOfRemainders(steps, start, steps - 1);
      QuotientIs(start - 1 + steps, steps, (start - 1) / steps + 1, (start - 1) % steps);
    }
  }

  predicate Consecutive(s: seq<Numbered>) {
    forall i | 0 <= i < |s| - 1 :: s[i + 1].sequence == s[i].sequence + 1
  }

  lemma {:induction false} ShiftsOfConsecutive(cfg: Config, s: seq<Numbered>)
    requires cfg.jitter > 0 && Consecutive(s)
    ensures var start := if s == [] then 0 else s[0].sequence;
            Shifts(cfg, s) == (SumOfRemainders(JitterSteps(cfg), start, |s|) - |s| * (cfg.jitter / MILLISECOND)) * MILLISECOND
  {
    if s != [] {
      ShiftsOfConsecutive(cfg, s[1..]);
      OneMore(|s| - 1, cfg.jitter / MILLISECOND);
    }
  }

  /** Jitter is balanced: the offsets of a full window of consecutive numbers sum to zero,
      whatever number it starts at, and whether or not the waits are negative. */
  lemma OffsetsSumToZero(cfg: Config, s: seq<Numbered>)
    requires cfg.jitter > 0 && Consecutive(s) && |s| == JitterSteps(cfg)
    ensures Shifts(cfg, s) == 0
  {
    var steps, j := JitterSteps(cfg), cfg.jitter / MILLISECOND;
    ShiftsOfConsecutive(cfg, s);
    WindowSum(steps, s[0].sequence);
    assert steps * (steps - 1) == 2 * (steps * j) by {
      assert steps - 1 == 2 * j;
      MulSwap(steps, 2, j);
    }
  }

  /** So a full window in which no wait is negative sleeps exactly its fixed delays and
      transmission times. */
  lemma JitterCancels(cfg: Config, s: seq<Numbered>)
    requires cfg.jitter > 0 && Moderate(cfg) && Ordinary(s) && Consecutive(s) && NoNegativeWait(cfg, s)
    requires |s| == JitterSteps(cfg)
    ensures Sleep(cfg, s) == |s| * cfg.delay + SendTimes(cfg, s)
  {
    SleepSplits(cfg, s);
    OffsetsSumToZero(cfg, s);
  }

  /** The total sleep of a run is that of the survivors of what it read. */
  lemma RunSleep(cfg: Config, length: nat, lengths: seq<nat>, inputs: seq<Input>)
    requires SameLength(length, lengths)
    ensures Run(cfg, lengths, Initial(inputs)).0.slept == Sleep(cfg, SurvivorsOf(cfg, length, lengths, Initial(inputs)))
  {
    var m := Initial(inputs);
    RunTicks(cfg, length, lengths, m);
    TickAllSleeps(cfg, ClockOf(m), SurvivorsOf(cfg, length, lengths, m));
  }

  /** The pacing bound for a whole run: `slept` against the survivors of what was read. */
  lemma RunPacing(cfg: Config, length: nat, lengths: seq<nat>, inputs: seq<Input>)
    requires SameLength(length, lengths) && length <= MAX_DATAGRAM
    requires cfg.jitter <= 0 && cfg.delay >= 0 && cfg.bandwidth > 0 && Moderate(cfg)
    ensures Paced(cfg, SurvivorsOf(cfg, length, lengths, Initial(inputs)), Run(cfg, lengths, Initial(inputs)).0.slept)
  {
    RunSleep(cfg, length, lengths, inputs);
    SurvivorsAreOrdinary(cfg, length, lengths, inputs);
    PacingBound(cfg, SurvivorsOf(cfg, length, lengths, Initial(inputs)));
  }

  lemma SurvivorsAreOrdinary(cfg: Config, length: nat, lengths: seq<nat>, inputs: seq<Input>)
    requires length <= MAX_DATAGRAM
    ensures Ordinary(SurvivorsOf(cfg, length, lengths, Initial(inputs)))
  {
    RunReaches(cfg, lengths, Initial(inputs));
    SurvivorsFit(cfg, length, Consumed(Initial(inputs), Run(cfg, lengths, Initial(inputs)).0), 0);
  }

  lemma {:induction false} SurvivorsFit(cfg: Config, length: nat, inputs: seq<Input>, last: uint64)
    ensures forall p <- Survivors(cfg, length, inputs, last) :: |p.packet.payload| <= length
  {
    if inputs != [] {
      SurvivorsFit(cfg, length, inputs[1..], NumberAfter(inputs[0], last));
    }
  }

  lemma {:induction false} SleepAppend(cfg: Config, s: seq<Numbered>, t: seq<Numbered>)
    ensures Sleep(cfg, s + t) == Sleep(cfg, s) + Sleep(cfg, t)
  {
    if s == [] {
      assert s + t == t;
    } else {
      assert (s + t)[1..] == s[1..] + t;
      SleepAppend(cfg, s[1..], t);
    }
  }

  /** In any run, jitter cancels in every full window of survivors with consecutive numbers:
      the total sleep is that before and after it, plus fixed delays and transmission times. */
  lemma RunJitter(cfg: Config, length: nat, lengths: seq<nat>, inputs: seq<Input>,
                  before: seq<Numbered>, window: seq<Numbered>, after: seq<Numbered>)
    requires SameLength(length, lengths) && length <= MAX_DATAGRAM && cfg.jitter > 0 && Moderate(cfg)
    requires SurvivorsOf(cfg, length, lengths, Initial(inputs)) == before + window + after
    requires |window| == JitterSteps(cfg) && Consecutive(window) && NoNegativeWait(cfg, window)
    ensures Run(cfg, lengths, Initial(inputs)).0.slept
            == Sleep(cfg, before) + |window| * cfg.delay + SendTimes(cfg, window) + Sleep(cfg, after)
  {
    RunSleep(cfg, length, lengths, inputs);
    SurvivorsAreOrdinary(cfg, length, lengths, inputs);
    WindowIsOrdinary(before, window, after);
    JitterCancels(cfg, window);
    SleepAppend(cfg, before + window, after);
    SleepAppend(cfg, before, window);
  }

  lemma WindowIsOrdinary(before: seq<Numbered>, window: seq<Numbered>, after: seq<Numbered>)
    requires Ordinary(before + window + after)
    ensures Ordinary(window)
  {
    forall i | 0 <= i < |window|
      ensures |window[i].packet.payload| <= MAX_DATAGRAM
    {
      assert window[i] == (before + window + after)[|before| + i];
    }
  }

  // ---------------------------------------------------------------- the delay counters

  /** The counter after counting a list of waits, in milliseconds. */
  function Lowest(start: int64, millis: seq<int64>): int64 {
    if millis == [] then start else LowerMillis(Lowest(start, millis[..|millis| - 1]), millis[|millis| - 1])
  }

  function Highest(start: int64, millis: seq<int64>): int64 {
    if millis == [] then start else HigherMillis(Highest(start, millis[..|millis| - 1]), millis[|millis| - 1])
  }

  /** The waits that are counted: whole milliseconds of every positive wait. */
  function Counted(cfg: Config, s: seq<Numbered>): seq<int64> {
    if s == [] then [] else
      var wait := WaitFor(cfg, s[|s| - 1]);
      Counted(cfg, s[..|s| - 1]) + (if wait > 0 then [wait / MILLISECOND] else [])
  }

  lemma {:induction false} TickAllCounters(cfg: Config, clock: Clock, s: seq<Numbered>)
    ensures var clock' := TickAll(cfg, clock, s);
            && clock'.minMillis == Lowest(clock.minMillis, Counted(cfg, s))
            && clock'.maxMillis == Highest(clock.maxMillis, Counted(cfg, s))
  {
    if s != [] {
      var front, last := s[..|s| - 1], s[|s| - 1];
      assert s == front + [last];
      TickAllAppend(cfg, clock, front, [last]);
      TickAllCounters(cfg, clock, front);
      var millis := Counted(cfg, front);
      if WaitFor(cfg, last) > 0 {
        assert (millis + [WaitFor(cfg, last) / MILLISECOND])[..|millis|] == millis;
      } else {
        assert millis + [] == millis;
      }
    }
  }

  /** On every run the two delay counters are those of the counted waits of the survivors. */
  lemma RunDelayCounters(cfg: Config, length: nat, lengths: seq<nat>, inputs: seq<Input>)
    requires SameLength(length, lengths)
    ensures var stats := Run(cfg, lengths, Initial(inputs)).0.stats;
            var millis := Counted(cfg, SurvivorsOf(cfg, length, lengths, Initial(inputs)));
            && stats.minDelayMillis == Lowest(0, millis) && stats.maxDelayMillis == Highest(0, millis)
            && forall y <- millis :: y >= 0
  {
    var m := Initial(inputs);
    RunTicks(cfg, length, lengths, m);
    var s := SurvivorsOf(cfg, length, lengths, m);
    TickAllCounters(cfg, ClockOf(m), s);
    CountedAreNatural(cfg, s);
  }

  lemma {:induction false} CountedAreNatural(cfg: Config, s: seq<Numbered>)
    ensures forall y <- Counted(cfg, s) :: y >= 0
  {
    if s != [] {
      CountedAreNatural(cfg, s[..|s| - 1]);
    }
  }

  predicate IsMinimum(x: int, millis: seq<int64>) {
    x in millis && forall y <- millis :: x <= y
  }

  /** The minimum counter is wrong in exactly one situation: some wait below a millisecond
      was counted, and a longer one came last. */
  lemma MinimumCounter(millis: seq<int64>)
    requires millis != [] && forall y <- millis :: y >= 0
    ensures Lowest(0, millis) in millis
    ensures IsMinimum(Lowest(0, millis), millis) <==> (0 in millis ==> millis[|millis| - 1] == 0)
  {
    LowestSoFar(millis);
  }

  lemma {:induction false} LowestSoFar(millis: seq<int64>)
    requires forall y <- millis :: y >= 0
    ensures Lowest(0, millis) == 0 <==> millis == [] || millis[|millis| - 1] == 0
    ensures millis != [] ==> Lowest(0, millis) in millis
    ensures 0 !in millis ==> forall y <- millis :: Lowest(0, millis) <= y
  {
    if millis != [] {
      var front, last := millis[..|millis| - 1], millis[|millis| - 1];
      assert millis == front + [last];
      assert last in millis && forall y <- front :: y in millis;
      LowestSoFar(front);
    }
  }

  lemma MaximumCounter(millis: seq<int64>)
    requires millis != [] && forall y <- millis :: y >= 0
    ensures Highest(0, millis) in millis && forall y <- millis :: y <= Highest(0, millis)
  {
    HighestSoFar(millis);
    if Highest(0, millis) == 0 {
      assert millis[0] in millis;
    }
  }

  lemma {:induction false} HighestSoFar(millis: seq<int64>)
    ensures Highest(0, millis) >= 0 && forall y <- millis :: y <= Highest(0, millis)
    ensures Highest(0, millis) == 0 || Highest(0, millis) in millis
  {
    if millis != [] {
      var front, last := millis[..|millis| - 1], millis[|millis| - 1];
      assert millis == front + [last];
      HighestSoFar(front);
    }
  }

  /** The waits that the minimum counter remembers: those counted after the last wait below a
      millisecond, or that wait itself when nothing followed it. */
  function Recent(millis: seq<int64>): seq<int64> {
    if millis == [] then []
    else
      var front, last := millis[..|millis| - 1], millis[|millis| - 1];
      if last == 0 || front == [] || front[|front| - 1] == 0 then [last] else Recent(front) + [last]
  }

  /** Said by position: when the last wait is not zero, the recent waits start right after
      the last zero, or at the beginning when there is none. */
  lemma {:induction false} RecentWaits(millis: seq<int64>) returns (k: nat)
    requires millis != [] && millis[|millis| - 1] != 0
    ensures k < |millis| && Recent(millis) == millis[k..] && 0 !in millis[k..]
    ensures k > 0 ==> millis[k - 1] == 0
  {
    var front, last := millis[..|millis| - 1], millis[|millis| - 1];
    if front == [] || front[|front| - 1] == 0 {
      k := |front|;
    } else {
      k := RecentWaits(front);
      SliceFromFront(millis, k);
    }
  }

  lemma SliceFromFront(millis: seq<int64>, k: nat)
    requires k < |millis|
    ensures millis[k..] == millis[..|millis| - 1][k..] + [millis[|millis| - 1]]
  {
  }

  /** The minimum counter is always the minimum of the recent waits. */
  lemma {:induction false} LowestIsRecent(millis: seq<int64>)
    requires millis != [] && forall y <- millis :: y >= 0
    ensures IsMinimum(Lowest(0, millis), Recent(millis))
  {
    var front, last := millis[..|millis| - 1], millis[|millis| - 1];
    assert millis == front + [last];
    assert last in millis && forall y <- front :: y in millis;
    LowestSoFar(front);
    if last != 0 && front != [] && front[|front| - 1] != 0 {
      LowestIsRecent(front);
    }
  }

  /** The acceptance rule "minimum below maximum" holds exactly when some recent wait is
      shorter than some counted wait. */
  lemma VariationCheck(millis: seq<int64>)
    requires millis != [] && forall y <- millis :: y >= 0
    ensures Lowest(0, millis) < Highest(0, millis) <==> exists x <- Recent(millis), y <- millis :: x < y
  {
    LowestIsRecent(millis);
    MaximumCounter(millis);
    assert Lowest(0, millis) in Recent(millis) && Highest(0, millis) in millis;
    if exists x <- Recent(millis), y <- millis :: x < y {
      var x, y :| x in Recent(millis) && y in millis && x < y;
      assert Lowest(0, millis) <= x < y <= Highest(0, millis);
    }
  }

  /** So it never sees variation that is not there, and sees all of it when no counted wait
      was below a millisecond. */
  lemma VariationSeen(millis: seq<int64>)
    requires millis != [] && forall y <- millis :: y >= 0
    ensures Lowest(0, millis) < Highest(0, millis) ==> exists x <- millis, y <- millis :: x != y
    ensures 0 !in millis && (exists x <- millis, y <- millis :: x != y) ==> Lowest(0, millis) < Highest(0, millis)
  {
    LowestSoFar(millis);
    MaximumCounter(millis);
  }

  // ---------------------------------------------------------------- variation that goes unseen

  const SLOW := Config(0, 0, 0, 0, 0, 16_000, 0)  // only a bandwidth, of 16 kbit/s

  const UNEVEN := [Arrival(Datagram(seq(1, i => 0), "")), Arrival(Datagram(seq(6, i => 0), ""))]

  lemma SlowWaits()
    ensures Wait(SLOW, 1, 1) == 500_000 && Wait(SLOW, 2, 6) == 3_000_000
  {
    TransmissionIsExact(SLOW, 1);
    TransmissionIsExact(SLOW, 6);
    WaitIsExact(SLOW, 1, 1);
    WaitIsExact(SLOW, 2, 6);
  }

  /** A run of two packets of one and six bytes at 16 kbit/s waits for 0.5 and for 3
      milliseconds and reports a minimum and a maximum of 3: the rule misses the variation. */
  lemma VariationMissed()
    ensures var (m', outcomes) := Run(SLOW, [1600, 1600], Initial(UNEVEN));
            && AllDelivered(outcomes) && m'.slept == 500_000 + 3_000_000 && m'.stats.delayed == 2
            && m'.stats.minDelayMillis == m'.stats.maxDelayMillis == 3
            && Counted(SLOW, SurvivorsOf(SLOW, 1600, [1600, 1600], Initial(UNEVEN))) == [0, 3]
  {
    var m := Initial(UNEVEN);
    var (m1, o1) := Serve(SLOW, 1600, m);
    var (m2, o2) := Serve(SLOW, 1600, m1);
    SlowWaits();
    SlowCall(m, UNEVEN[0].datagram);
    SlowCall(m1, UNEVEN[1].datagram);
    RunTwo(SLOW, 1600, m);
    SurvivorsOfTwo(SLOW, 1600, m);
    CountedTwo(SLOW, Numbered(UNEVEN[0].datagram, 1), Numbered(UNEVEN[1].datagram, 2));
  }

  lemma SurvivorsOfTwo(cfg: Config, length: nat, m: Machine)
    ensures SurvivorsOf(cfg, length, [length, length], m)
            == Taken(cfg, length, m) + Taken(cfg, length, Serve(cfg, length, m).0)
  {
    SurvivorsOfRun(cfg, length, [length, length], m);
    assert [length, length][1..] == [length];
    SurvivorsOfRun(cfg, length, [length], Serve(cfg, length, m).0);
    assert [length][1..] == [];
    SurvivorsOfRun(cfg, length, [], Serve(cfg, length, Serve(cfg, length, m).0).0);
  }

  lemma CountedTwo(cfg: Config, p: Numbered, q: Numbered)
    requires WaitFor(cfg, p) > 0 && WaitFor(cfg, q) > 0
    ensures Counted(cfg, [p] + [q]) == [WaitFor(cfg, p) / MILLISECOND, WaitFor(cfg, q) / MILLISECOND]
  {
    assert ([p] + [q])[..1] == [p] && [p][..0] == [];
    assert Counted(cfg, []) == [];
    assert Counted(cfg, [p]) == [WaitFor(cfg, p) / MILLISECOND];
  }

  lemma RunTwo(cfg: Config, length: nat, m: Machine)
    ensures var (m1, o1) := Serve(cfg, length, m);
            var (m2, o2) := Serve(cfg, length, m1);
            Run(cfg, [length, length], m) == (m2, [o1, o2])
  {
    var (m1, o1) := Serve(cfg, length, m);
    var (m2, o2) := Serve(cfg, length, m1);
    RunFirst(cfg, length, [length], m);
    RunFirst(cfg, length, [], m1);
    assert [length] + [length] == [length, length] && [length] + [] == [length];
    assert [o2] + [] == [o2] && [o1] + [o2] == [o1, o2];
  }

  lemma RunFirst(cfg: Config, length: nat, rest: seq<nat>, m: Machine)
    ensures var (m1, o) := Serve(cfg, length, m);
            var (m2, outcomes) := Run(cfg, rest, m1);
            Run(cfg, [length] + rest, m) == (m2, [o] + outcomes)
  {
    assert ([length] + rest)[0] == length && ([length] + rest)[1..] == rest;
  }

  /** One call under these settings: the next packet, after the time its bytes take. */
  lemma SlowCall(m: Machine, d: Datagram)
    requires m.ready == [] && m.pending != [] && m.pending[0] == Arrival(d) && |d.payload| <= 1600
    ensures var sequence := Add64(m.sequence, 1);
            var wait := Wait(SLOW, sequence, |d.payload|);
            Serve(SLOW, 1600, m)
            == (Machine(m.pending[1..], [], sequence,
                        CountDelay(CountRead(m.stats, |d.payload|), wait, IsChannelData(d.payload), false, |d.payload| > 0),
                        m.slept + Positive(wait)),
                Delivered(d))
    ensures Taken(SLOW, 1600, m) == [Numbered(d, Add64(m.sequence, 1))]
  {
    assert [d][1..] == [];
  }
}
