/** The harness TURN server's network impairer, as a pure state machine.

    `Fetch` is the meaning of `nextPacket` and `Serve` the meaning of `ReadFrom`; the
    classes of module `TurnServer` are proved to compute exactly these functions, and the
    laws of the other modules are proved about them.  All counters and the sequence number
    are 64-bit unsigned and wrap; durations are 64-bit signed nanoseconds and wrap. */
module Impairment {

  const U64: int := 0x1_0000_0000_0000_0000
  const I63: int := 0x8000_0000_0000_0000
  const MILLISECOND: int := 1_000_000
  const SECOND: int := 1_000_000_000

  type uint64 = x: int | 0 <= x < U64
  type int64 = x: int | -I63 <= x < I63

  type Byte = bv8
  type Address = string
  type Error = string

  const CLOSED: Error := "use of closed network connection"

  datatype Datagram = Datagram(payload: seq<Byte>, address: Address)

  /** What one read of the underlying connection produces. */
  datatype Input = Arrival(datagram: Datagram) | Failure(error: Error)

  datatype Config = Config(
    dropEvery: uint64,
    reorderEvery: uint64,
    duplicateEvery: uint64,
    delay: int64,
    jitter: int64,
    bandwidth: uint64,
    mtu: int)

  datatype Stats = Stats(
    readPackets: uint64,
    readBytes: uint64,
    dropped: uint64,
    mtuDropped: uint64,
    delayed: uint64,
    reordered: uint64,
    duplicated: uint64,
    maxDatagramSize: int,
    dataDropped: uint64,
    dataMTUDropped: uint64,
    dataDelayed: uint64,
    dataJittered: uint64,
    dataBandwidth: uint64,
    dataReordered: uint64,
    dataDuplicated: uint64,
    minDelayMillis: int64,
    maxDelayMillis: int64)

  const ZERO_STATS := Stats(0, 0, 0, 0, 0, 0, 0, 0, 0, 0, 0, 0, 0, 0, 0, 0, 0)

  function Add64(a: uint64, b: uint64): uint64 {
    (a + b) % U64
  }

  /** Conversion of any integer to a signed 64-bit value, discarding the upper bits. */
  function ToInt64(x: int): int64 {
    var r := x % U64;
    if r < I63 then r else r - U64
  }

  /** Whether a period selects a sequence number; a period of zero switches it off. */
  predicate Every(period: uint64, sequence: uint64) {
    period > 0 && sequence % period == 0
  }

  predicate IsChannelData(payload: seq<Byte>) {
    |payload| >= 4 && payload[0] & 0xc0 == 0x40
  }

  /** A read into a buffer of `length` bytes keeps only the bytes that fit. */
  function Truncate(d: Datagram, length: nat): (t: Datagram)
    ensures t.payload <= d.payload && t.address == d.address
    ensures |t.payload| == if |d.payload| <= length then |d.payload| else length
    ensures |d.payload| <= length ==> t == d
  {
    if |d.payload| <= length then d else d.(payload := d.payload[..length])
  }

  // ---------------------------------------------------------------- delay arithmetic

  function JitterSteps(cfg: Config): (steps: int)
    requires cfg.jitter > 0
    ensures 0 < steps < I63 && steps % 2 == 1
  {
    cfg.jitter / MILLISECOND * 2 + 1
  }

  function JitterOffset(cfg: Config, sequence: uint64): int {
    if cfg.jitter > 0 then sequence % JitterSteps(cfg) - JitterSteps(cfg) / 2 else 0
  }

  /** Nanoseconds for sending `size` bytes, with the 64-bit products of the source. */
  function Transmission(cfg: Config, size: nat): int64 {
    if cfg.bandwidth > 0 then
      var bits := size % U64 * 8 % U64;
      ToInt64(bits * SECOND % U64 / cfg.bandwidth)
    else 0
  }

  function Wait(cfg: Config, sequence: uint64, size: nat): int64 {
    var wait := if cfg.jitter > 0 then ToInt64(cfg.delay + JitterOffset(cfg, sequence) * MILLISECOND) else cfg.delay;
    if cfg.bandwidth > 0 then ToInt64(wait + Transmission(cfg, size)) else wait
  }

  function Positive(x: int): nat {
    if x > 0 then x else 0
  }

  // ---------------------------------------------------------------- counters

  function Bump(counter: uint64, condition: bool): uint64 {
    if condition then Add64(counter, 1) else counter
  }

  function CountRead(stats: Stats, size: nat): Stats {
    stats.(readPackets := Add64(stats.readPackets, 1),
           readBytes := Add64(stats.readBytes, size % U64),
           maxDatagramSize := if size > stats.maxDatagramSize then size else stats.maxDatagramSize)
  }

  function CountMTUDrop(stats: Stats, channelData: bool): Stats {
    stats.(mtuDropped := Add64(stats.mtuDropped, 1),
           dataMTUDropped := Bump(stats.dataMTUDropped, channelData))
  }

  function CountDrop(stats: Stats, channelData: bool): Stats {
    stats.(dropped := Add64(stats.dropped, 1),
           dataDropped := Bump(stats.dataDropped, channelData))
  }

  function CountDuplicate(stats: Stats, channelData: bool): Stats {
    stats.(duplicated := Add64(stats.duplicated, 1),
           dataDuplicated := Bump(stats.dataDuplicated, channelData))
  }

  function CountReorder(stats: Stats, channelData: bool): Stats {
    stats.(reordered := Add64(stats.reordered, 1),
           dataReordered := Bump(stats.dataReordered, channelData))
  }

  /** The running minimum of the source, in which 0 means "nothing recorded yet". */
  function LowerMillis(recorded: int64, millis: int64): int64 {
    if recorded == 0 || millis < recorded then millis else recorded
  }

  function HigherMillis(recorded: int64, millis: int64): int64 {
    if millis > recorded then millis else recorded
  }

  function CountDelay(stats: Stats, wait: int64, channelData: bool, jittered: bool, limited: bool): Stats {
    if wait <= 0 then stats else
      stats.(delayed := Add64(stats.delayed, 1),
             dataDelayed := Bump(stats.dataDelayed, channelData),
             dataJittered := Bump(stats.dataJittered, channelData && jittered),
             dataBandwidth := Bump(stats.dataBandwidth, channelData && limited),
             minDelayMillis := LowerMillis(stats.minDelayMillis, wait / MILLISECOND),
             maxDelayMillis := HigherMillis(stats.maxDelayMillis, wait / MILLISECOND))
  }

  function CountWait(cfg: Config, stats: Stats, sequence: uint64, size: nat, channelData: bool): Stats {
    CountDelay(stats, Wait(cfg, sequence, size), channelData,
               JitterOffset(cfg, sequence) != 0, cfg.bandwidth > 0 && size > 0)
  }

  // ---------------------------------------------------------------- the machine

  /** `pending` is what the network will still produce; `slept` sums the sleeps. */
  datatype Machine = Machine(
    pending: seq<Input>,
    ready: seq<Datagram>,
    sequence: uint64,
    stats: Stats,
    slept: int)

  function Initial(inputs: seq<Input>): Machine {
    Machine(inputs, [], 0, ZERO_STATS, 0)
  }

  datatype Verdict = Oversize | Periodic | Passed

  /** The order of the two tests matters: an oversized packet is never a periodic drop. */
  function Screen(cfg: Config, sequence: uint64, size: nat): Verdict {
    if cfg.mtu > 0 && size > cfg.mtu then Oversize
    else if Every(cfg.dropEvery, sequence) then Periodic
    else Passed
  }

  datatype Fetched = Got(packet: Datagram, sequence: uint64) | Broke(error: Error)

  datatype Outcome = Delivered(packet: Datagram) | Failed(error: Error)

  function Account(cfg: Config, stats: Stats, sequence: uint64, payload: seq<Byte>): Stats {
    var size, data := |payload|, IsChannelData(payload);
    var read := CountRead(stats, size);
    match Screen(cfg, sequence, size)
    case Oversize => CountMTUDrop(read, data)
    case Periodic => CountDrop(read, data)
    case Passed => CountWait(cfg, read, sequence, size, data)
  }

  /** Everything one arriving datagram does to the state before the next read. */
  function Accept(cfg: Config, length: nat, m: Machine): (m': Machine)
    requires m.pending != [] && m.pending[0].Arrival?
    ensures |m'.pending| < |m.pending|
  {
    var payload := Truncate(m.pending[0].datagram, length).payload;
    var sequence := Add64(m.sequence, 1);
    var pause := if Screen(cfg, sequence, |payload|).Passed? then Positive(Wait(cfg, sequence, |payload|)) else 0;
    Machine(m.pending[1..], m.ready, sequence, Account(cfg, m.stats, sequence, payload), m.slept + pause)
  }

  /** `nextPacket`: read until a packet survives both filters or the read fails. */
  function Fetch(cfg: Config, length: nat, m: Machine): (r: (Machine, Fetched))
    ensures r.0.ready == m.ready
    ensures r.1.Got? ==> |r.1.packet.payload| <= length
    decreases |m.pending|
  {
    if m.pending == [] then (m, Broke(CLOSED))
    else match m.pending[0]
      case Failure(e) => (m.(pending := m.pending[1..]), Broke(e))
      case Arrival(d) =>
        var m' := Accept(cfg, length, m);
        var packet := Truncate(d, length);
        if Screen(cfg, m'.sequence, |packet.payload|).Passed? then (m', Got(packet, m'.sequence))
        else Fetch(cfg, length, m')
  }

  function Copies(packet: Datagram, twice: bool): seq<Datagram> {
    if twice then [packet, packet] else [packet]
  }

  /** A surviving packet is selected for duplication, and counted, as soon as it is fetched. */
  function NoteDuplicate(cfg: Config, m: Machine, packet: Datagram, sequence: uint64): Machine {
    if Every(cfg.duplicateEvery, sequence) then
      m.(stats := CountDuplicate(m.stats, IsChannelData(packet.payload)))
    else m
  }

  /** `ReadFrom` with a buffer of `length` bytes. */
  function Serve(cfg: Config, length: nat, m: Machine): (Machine, Outcome) {
    if m.ready != [] then
      (m.(ready := m.ready[1..]), Delivered(Truncate(m.ready[0], length)))
    else
      var (m1, first) := Fetch(cfg, length, m);
      match first
      case Broke(e) => (m1, Failed(e))
      case Got(current, sequence) =>
        var m2 := NoteDuplicate(cfg, m1, current, sequence);
        var copies := Copies(current, Every(cfg.duplicateEvery, sequence));
        if Every(cfg.reorderEvery, sequence) then
          LookAhead(cfg, length, m2, current, copies)
        else
          (m2.(ready := copies[1..]), Delivered(current))
  }

  /** The reordering branch: the packet after `current` overtakes all copies of `current`.
      When that read fails the held copies are gone, although already counted. */
  function LookAhead(cfg: Config, length: nat, m: Machine, current: Datagram, copies: seq<Datagram>): (Machine, Outcome) {
    var (m1, second) := Fetch(cfg, length, m);
    match second
    case Broke(e) => (m1, Failed(e))
    case Got(next, sequence) =>
      var data := IsChannelData(current.payload) || IsChannelData(next.payload);
      var m2 := m1.(stats := CountReorder(m1.stats, data));
      var m3 := NoteDuplicate(cfg, m2, next, sequence);
      var ahead := Copies(next, Every(cfg.duplicateEvery, sequence));
      (m3.(ready := ahead[1..] + copies), Delivered(next))
  }

  /** A run: one call for each buffer length. */
  function Run(cfg: Config, lengths: seq<nat>, m: Machine): (r: (Machine, seq<Outcome>))
    ensures |r.1| == |lengths|
  {
    if lengths == [] then (m, []) else
      var (m1, outcome) := Serve(cfg, lengths[0], m);
      var (m2, outcomes) := Run(cfg, lengths[1..], m1);
      (m2, [outcome] + outcomes)
  }

  /** Unsigned and signed 64-bit arithmetic: sums modulo 2^64, and the one representative of a
      number modulo 2^64 that lies between -2^63 and 2^63 - 1. */
  lemma WrapAround(a: uint64, b: uint64, x: int)
    ensures Add64(a, b) == if a + b < 18_446_744_073_709_551_616 then a + b else a + b - 18_446_744_073_709_551_616
    ensures ToInt64(x) == (x + 9_223_372_036_854_775_808) % 18_446_744_073_709_551_616 - 9_223_372_036_854_775_808
  {
  }

  /** Channel data is exactly what starts with a TURN channel number, 0x4000 to 0x7FFF. */
  lemma ChannelDataPrefix(payload: seq<Byte>)
    ensures IsChannelData(payload) <==> |payload| >= 4 && 0x40 <= payload[0] <= 0x7f
  {
    if |payload| >= 4 {
      var b := payload[0];
      assert b & 0xc0 == 0x40 <==> 0x40 <= b <= 0x7f;
    }
  }
}
