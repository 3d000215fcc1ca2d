/** The impairer as the TURN server runs it: a connection object whose methods update a
    queue of packets, a sequence counter and a block of counters, and copy bytes between
    buffers.  One goroutine reads; `Snapshot` is the only other access. */
module TurnServer {
  import opened Wrappers
  import opened Impairment

  /** The wrapped connection.  `pending` is the network: what later reads will produce.
      A failing read may leave anything in the buffer. */
  class PacketConn {
    var pending: seq<Input>

    constructor (inputs: seq<Input>)
      ensures pending == inputs
    {
      pending := inputs;
    }

    method ReadFrom(buffer: array<Byte>) returns (n: nat, address: Address, error: Option<Error>)
      modifies this, buffer
      ensures old(pending) == [] ==> error == Some(CLOSED) && pending == []
      ensures old(pending) != [] ==> pending == old(pending)[1..]
      ensures old(pending) != [] && old(pending)[0].Failure? ==> error == Some(old(pending)[0].error)
      ensures old(pending) != [] && old(pending)[0].Arrival? ==>
                var d := Truncate(old(pending)[0].datagram, buffer.Length);
                error == None && n == |d.payload| <= buffer.Length && buffer[..n] == d.payload && address == d.address
    {
      n, address := 0, "";
      if pending == [] {
        return n, address, Some(CLOSED);
      }
      var input := pending[0];
      pending := pending[1..];
      match input
      case Failure(e) => error := Some(e);
      case Arrival(d) =>
        n := CopyInto(buffer, d.payload);
        address, error := d.address, None;
    }
  }

  /** Go's `copy`: as many bytes as fit. */
  method CopyInto(buffer: array<Byte>, payload: seq<Byte>) returns (n: nat)
    modifies buffer
    ensures n == if |payload| <= buffer.Length then |payload| else buffer.Length
    ensures buffer[..n] == payload[..n]
    ensures buffer[n..] == old(buffer[n..])
  {
    n := if |payload| <= buffer.Length then |payload| else buffer.Length;
    forall i | 0 <= i < n {
      buffer[i] := payload[i];
    }
  }

  /** A queued packet owns its bytes. */
  datatype Packet = Packet(payload: array<Byte>, address: Address, channelData: bool)

  ghost function Value(p: Packet): Datagram
    reads p.payload
  {
    Datagram(p.payload[..], p.address)
  }

  ghost predicate WellFormed(p: Packet)
    reads p.payload
  {
    p.channelData == IsChannelData(p.payload[..])
  }

  method CopyPacket(buffer: array<Byte>, n: nat, address: Address) returns (p: Packet)
    requires n <= buffer.Length
    ensures fresh(p.payload) && WellFormed(p)
    ensures Value(p) == Datagram(buffer[..n], address)
  {
    var payload := new Byte[n](i requires 0 <= i < n <= buffer.Length reads buffer => buffer[i]);
    assert payload[..] == buffer[..n];
    p := Packet(payload, address, IsChannelData(buffer[..n]));
  }

  method ReturnPacket(buffer: array<Byte>, p: Packet) returns (n: nat, address: Address)
    requires p.payload != buffer
    modifies buffer
    ensures n <= buffer.Length
    ensures Datagram(buffer[..n], address) == Truncate(Value(p), buffer.Length)
  {
    n := CopyInto(buffer, p.payload[..]);
    address := p.address;
  }

  /** A fetch as the methods return it: a packet with its number, or an error. */
  ghost predicate Found(fetched: Fetched, r: Option<Packet>, number: uint64, error: Error)
    reads if r.Some? then {r.value.payload} else {}
  {
    match fetched
    case Broke(e) => r == None && error == e
    case Got(d, s) => r.Some? && WellFormed(r.value) && Value(r.value) == d && number == s
  }

  /** An outcome as a caller sees it: an error, or bytes in its buffer and an address. */
  ghost predicate Reports(outcome: Outcome, buffer: array<Byte>, n: nat, address: Address, error: Option<Error>)
    reads buffer
  {
    match outcome
    case Failed(e) => error == Some(e) && n == 0
    case Delivered(d) => error == None && n <= buffer.Length && Datagram(buffer[..n], address) == d
  }

  class ImpairedPacketConn {
    const inner: PacketConn
    const config: Config
    var ready: seq<Packet>
    var sequence: uint64
    var stats: Stats
    ghost var slept: int
    ghost var queue: seq<Datagram>  // the values of the packets in `ready`
    ghost var Repr: set<object>  // the byte arrays of the packets in `ready`

    constructor (inner: PacketConn, config: Config)
      ensures Valid() && this.inner == inner && this.config == config && fresh(Repr)
      ensures State() == Initial(inner.pending)
    {
      this.inner, this.config := inner, config;
      ready, sequence, stats, slept := [], 0, ZERO_STATS, 0;
      queue, Repr := [], {};
    }

    ghost predicate Valid()
      reads this, Repr
    {
      && |ready| == |queue| <= 3
      && forall i | 0 <= i < |ready| :: ready[i].payload in Repr && WellFormed(ready[i]) && Value(ready[i]) == queue[i]
    }

    ghost function State(): Machine
      reads this, inner
    {
      Machine(inner.pending, queue, sequence, stats, slept)
    }

    method ReadPacket(buffer: array<Byte>) returns (n: nat, address: Address, error: Option<Error>)
      requires Valid() && buffer !in Repr
      modifies this`stats, inner, buffer
      ensures Valid()
      ensures var before, after := old(State()), State();
              if before.pending == [] then error == Some(CLOSED) && after == before
              else match before.pending[0]
                case Failure(e) => error == Some(e) && after == before.(pending := before.pending[1..])
                case Arrival(d) =>
                  var t := Truncate(d, buffer.Length);
                  && error == None && n == |t.payload| <= buffer.Length
                  && buffer[..n] == t.payload && address == t.address
                  && after == before.(pending := before.pending[1..], stats := CountRead(before.stats, n))
    {
      n, address, error := inner.ReadFrom(buffer);
      if error == None {
        stats := stats.(readPackets := Add64(stats.readPackets, 1),
                        readBytes := Add64(stats.readBytes, n % U64));
        if n > stats.maxDatagramSize {
          stats := stats.(maxDatagramSize := n);
        }
      }
    }

    /** The pause before a packet, and which of jitter and bandwidth contributed to it. */
    method Delay(sequence: uint64, size: nat) returns (wait: int64, jittered: bool, bandwidthDelayed: bool)
      ensures wait == Wait(config, sequence, size)
      ensures jittered == (JitterOffset(config, sequence) != 0)
      ensures bandwidthDelayed == (config.bandwidth > 0 && size > 0)
    {
      wait := config.delay;
      jittered, bandwidthDelayed := false, false;
      if config.jitter > 0 {
        var steps := JitterSteps(config);
        var offset := sequence % steps - steps / 2;
        wait := ToInt64(wait + offset * MILLISECOND);
        jittered := offset != 0;
      }
      if config.bandwidth > 0 {
        wait := ToInt64(wait + Transmission(config, size));
        bandwidthDelayed := size > 0;
      }
    }

    method Pause(sequence: uint64, size: nat, channelData: bool)
      requires Valid()
      modifies this`stats, this`slept
      ensures Valid()
      ensures State() == old(State()).(stats := CountWait(config, old(stats), sequence, size, channelData),
                                       slept := old(slept) + Positive(Wait(config, sequence, size)))
    {
      var wait, jittered, bandwidthDelayed := Delay(sequence, size);
      if wait > 0 {
        var s := stats;
        s := s.(delayed := Add64(s.delayed, 1));
        if channelData {
          s := s.(dataDelayed := Add64(s.dataDelayed, 1));
          if jittered {
            s := s.(dataJittered := Add64(s.dataJittered, 1));
          }
          if bandwidthDelayed {
            s := s.(dataBandwidth := Add64(s.dataBandwidth, 1));
          }
        }
        var millis := wait / MILLISECOND;
        if s.minDelayMillis == 0 || millis < s.minDelayMillis {
          s := s.(minDelayMillis := millis);
        }
        if millis > s.maxDelayMillis {
          s := s.(maxDelayMillis := millis);
        }
        stats, slept := s, slept + wait;
      }
    }

    /** The two locked counter blocks of `nextPacket`. */
    method NoteDropped(verdict: Verdict, channelData: bool)
      requires Valid() && !verdict.Passed?
      modifies this`stats
      ensures Valid()
      ensures stats == if verdict.Oversize? then CountMTUDrop(old(stats), channelData) else CountDrop(old(stats), channelData)
    {
      if verdict.Oversize? {
        stats := stats.(mtuDropped := Add64(stats.mtuDropped, 1));
        if channelData {
          stats := stats.(dataMTUDropped := Add64(stats.dataMTUDropped, 1));
        }
      } else {
        stats := stats.(dropped := Add64(stats.dropped, 1));
        if channelData {
          stats := stats.(dataDropped := Add64(stats.dataDropped, 1));
        }
      }
    }

    /** Skips everything the filters drop; the packet returned owns a copy of its bytes. */
    method NextPacket(buffer: array<Byte>) returns (r: Option<Packet>, number: uint64, error: Error)
      requires Valid() && buffer !in Repr
      modifies this`stats, this`slept, this`sequence, inner, buffer
      ensures Valid()
      ensures var (after, fetched) := Fetch(config, buffer.Length, old(State()));
              State() == after && Found(fetched, r, number, error)
      ensures r.Some? ==> fresh(r.value.payload)
    {
      ghost var goal := Fetch(config, buffer.Length, State());
      while true
        invariant Valid() && Fetch(config, buffer.Length, State()) == goal
        modifies this`stats, this`slept, this`sequence, inner, buffer
        decreases |inner.pending|
      {
        var n, address, readError := ReadPacket(buffer);
        if readError.Some? {
          return None, 0, readError.value;
        }
        sequence := Add64(sequence, 1);
        number := sequence;
        var channelData := IsChannelData(buffer[..n]);
        if config.mtu > 0 && n > config.mtu {
          NoteDropped(Oversize, channelData);
          continue;
        }
        if Every(config.dropEvery, number) {
          NoteDropped(Periodic, channelData);
          continue;
        }
        Pause(number, n, channelData);
        var p := CopyPacket(buffer, n, address);
        return Some(p), number, "";
      }
    }

    method CountDuplicateOf(p: Packet)
      requires Valid() && WellFormed(p)
      modifies this`stats
      ensures Valid()
      ensures stats == CountDuplicate(old(stats), IsChannelData(Value(p).payload))
    {
      stats := stats.(duplicated := Add64(stats.duplicated, 1));
      if p.channelData {
        stats := stats.(dataDuplicated := Add64(stats.dataDuplicated, 1));
      }
    }

    /** The locked counter block of the reordering branch. */
    method NoteOvertaking(current: Packet, next: Packet, duplicateNext: bool)
      requires Valid() && WellFormed(current) && WellFormed(next)
      modifies this`stats
      ensures Valid()
      ensures var data := IsChannelData(Value(next).payload);
              var counted := CountReorder(old(stats), IsChannelData(Value(current).payload) || data);
              stats == if duplicateNext then CountDuplicate(counted, data) else counted
    {
      stats := stats.(reordered := Add64(stats.reordered, 1));
      if current.channelData || next.channelData {
        stats := stats.(dataReordered := Add64(stats.dataReordered, 1));
      }
      if duplicateNext {
        CountDuplicateOf(next);
      }
    }

    /** Queues what is left of a swapped pair: a copy of `next` first, then `current`. */
    method EnqueuePair(next: Packet, duplicateNext: bool, current: Packet, duplicateCurrent: bool)
      requires Valid() && ready == [] && WellFormed(next) && WellFormed(current)
      modifies this`ready, this`queue, this`Repr
      ensures Valid() && Repr <= old(Repr) + {next.payload, current.payload}
      ensures queue == Copies(Value(next), duplicateNext)[1..] + Copies(Value(current), duplicateCurrent)
    {
      if duplicateNext {
        Enqueue(next);
      }
      Enqueue(current);
      if duplicateCurrent {
        Enqueue(current);
      }
    }

    method Enqueue(p: Packet)
      requires Valid() && WellFormed(p) && |ready| < 3
      modifies this`ready, this`queue, this`Repr
      ensures Valid() && Repr == old(Repr) + {p.payload}
      ensures ready == old(ready) + [p] && queue == old(queue) + [Value(p)]
    {
      ready, queue := ready + [p], queue + [Value(p)];
      Repr := Repr + {p.payload};
    }

    /** The queue branch of `ReadFrom`. */
    method Dequeue(buffer: array<Byte>) returns (n: nat, address: Address)
      requires Valid() && buffer !in Repr && ready != []
      modifies this`ready, this`queue, buffer
      ensures Valid() && queue == old(queue)[1..]
      ensures n <= buffer.Length && Datagram(buffer[..n], address) == Truncate(old(queue)[0], buffer.Length)
    {
      var value := ready[0];
      ready, queue := ready[1..], queue[1..];
      n, address := ReturnPacket(buffer, value);
    }

    /** One read by the TURN server. */
    method ReadFrom(buffer: array<Byte>) returns (n: nat, address: Address, error: Option<Error>)
      requires Valid() && buffer !in Repr
      modifies this, inner, buffer
      ensures Valid() && fresh(Repr - old(Repr))
      ensures var (after, outcome) := Serve(config, buffer.Length, old(State()));
              State() == after && Reports(outcome, buffer, n, address, error)
    {
      n, address, error := 0, "", None;
      if |ready| > 0 {
        n, address := Dequeue(buffer);
        return;
      }
      var fetched, number, readError := NextPacket(buffer);
      if fetched.None? {
        error := Some(readError);
        return;
      }
      var current := fetched.value;
      var duplicateCurrent := Every(config.duplicateEvery, number);
      if duplicateCurrent {
        CountDuplicateOf(current);
      }
      if Every(config.reorderEvery, number) {
        n, address, error := Overtake(buffer, current, duplicateCurrent);
        return;
      }
      if duplicateCurrent {
        Enqueue(current);
      }
      n, address := ReturnPacket(buffer, current);
    }

    /** The reordering branch of `ReadFrom`, with a scratch buffer for the look-ahead. */
    method Overtake(buffer: array<Byte>, current: Packet, duplicateCurrent: bool)
      returns (n: nat, address: Address, error: Option<Error>)
      requires Valid() && buffer !in Repr && ready == []
      requires WellFormed(current) && current.payload != buffer && |Value(current).payload| <= buffer.Length
      modifies this, inner, buffer
      ensures Valid() && fresh(Repr - old(Repr) - {current.payload})
      ensures var (after, outcome) :=
                LookAhead(config, buffer.Length, old(State()), old(Value(current)), Copies(old(Value(current)), duplicateCurrent));
              State() == after && Reports(outcome, buffer, n, address, error)
    {
      n, address, error := 0, "", None;
      var nextBuffer := new Byte[buffer.Length];
      var fetched, nextNumber, nextError := NextPacket(nextBuffer);
      if fetched.None? {
        error := Some(nextError);
        return;
      }
      var next := fetched.value;
      var duplicateNext := Every(config.duplicateEvery, nextNumber);
      NoteOvertaking(current, next, duplicateNext);
      EnqueuePair(next, duplicateNext, current, duplicateCurrent);
      n, address := ReturnPacket(buffer, next);
    }

    /** What SIGUSR1 prints: the counters with the configuration beside them. */
    method Snapshot() returns (counters: Stats, delayMillis: int, jitterMillis: int, bandwidth: uint64, mtu: int)
      requires Valid()
      ensures counters == State().stats
      ensures bandwidth == config.bandwidth && mtu == config.mtu
      ensures delayMillis == Milliseconds(config.delay) && jitterMillis == Milliseconds(config.jitter)
    {
      return stats, Milliseconds(config.delay), Milliseconds(config.jitter), config.bandwidth, config.mtu;
    }
  }

  function LengthsOf(buffers: seq<array<Byte>>): (lengths: seq<nat>)
    ensures |lengths| == |buffers|
  {
    seq(|buffers|, i requires 0 <= i < |buffers| => buffers[i].Length)
  }

  /** One call, after the caller has overwritten its buffer. */
  method ReadAgain(conn: ImpairedPacketConn, buffer: array<Byte>, content: seq<Byte>) returns (outcome: Outcome)
    requires conn.Valid() && buffer !in conn.Repr
    modifies conn, conn.inner, buffer
    ensures conn.Valid() && fresh(conn.Repr - old(conn.Repr))
    ensures (conn.State(), outcome) == Serve(conn.config, buffer.Length, old(conn.State()))
  {
    var _ := CopyInto(buffer, content);
    var n, address, error := conn.ReadFrom(buffer);
    outcome := if error.Some? then Failed(error.value) else Delivered(Datagram(buffer[..n], address));
  }

  /** The reader's side: one call for each buffer, which may be the same every time and is
      overwritten with arbitrary bytes before the call.  Over any number of calls the object
      computes `Run`, so no packet that waits in the queue is touched by the overwriting. */
  method ReadMany(conn: ImpairedPacketConn, buffers: seq<array<Byte>>, contents: seq<seq<Byte>>) returns (outcomes: seq<Outcome>)
    requires conn.Valid() && |contents| == |buffers|
    requires forall buffer <- buffers :: buffer !in conn.Repr
    modifies conn, conn.inner, buffers
    ensures conn.Valid() && fresh(conn.Repr - old(conn.Repr))
    ensures (conn.State(), outcomes) == Run(conn.config, LengthsOf(buffers), old(conn.State()))
    decreases |buffers|
  {
    if buffers == [] {
      return [];
    }
    var outcome := ReadAgain(conn, buffers[0], contents[0]);
    assert LengthsOf(buffers)[1..] == LengthsOf(buffers[1..]);
    var rest := ReadMany(conn, buffers[1..], contents[1..]);
    outcomes := [outcome] + rest;
  }

  /** Go's `Duration.Milliseconds`, which truncates towards zero. */
  function Milliseconds(d: int): (ms: int)
    ensures d >= 0 ==> 0 <= ms * MILLISECOND <= d < (ms + 1) * MILLISECOND
    ensures d < 0 ==> (ms - 1) * MILLISECOND < d <= ms * MILLISECOND <= 0
  {
    if d >= 0 then d / MILLISECOND else -(-d / MILLISECOND)
  }
}
