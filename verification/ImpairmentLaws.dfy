/** What the impairer's counters say about a run: conservation, and the exact numbers of
    drops, duplicates and reorderings.  All laws hold from any number of reads short of the
    2^64 at which the sequence number returns to zero. */
module ImpairmentLaws {
  import opened Impairment
  import opened StreamTransformer

  /** The sequence number cannot wrap before the network is exhausted. */
  predicate Unwrapped(m: Machine) {
    m.sequence + |m.pending| < U64
  }

  /** Packets that came in and passed both filters. */
  function Passing(stats: Stats): int {
    stats.readPackets - stats.mtuDropped - stats.dropped
  }

  /** What holds of the counters between any two reads of the network. */
  predicate Books(s: Stats) {
    && Passing(s) >= 0
    && s.delayed <= Passing(s) && s.duplicated <= Passing(s) && 2 * s.reordered <= Passing(s)
    && s.dataDropped <= s.dropped && s.dataMTUDropped <= s.mtuDropped
    && s.dataDelayed <= s.delayed && s.dataJittered <= s.dataDelayed && s.dataBandwidth <= s.dataDelayed
    && s.dataReordered <= s.reordered && s.dataDuplicated <= s.duplicated
  }

  predicate Balanced(m: Machine) {
    Books(m.stats) && m.stats.readPackets == m.sequence && Unwrapped(m)
  }

  lemma AddOne(x: uint64)
    requires x + 1 < U64
    ensures Add64(x, 1) == x + 1
  {
  }

  lemma BumpOne(x: uint64, condition: bool)
    requires x + 1 < U64
    ensures Bump(x, condition) == if condition then x + 1 else x
  {
  }

  lemma {:induction false} CountDelayBooks(s: Stats, wait: int64, channelData: bool, jittered: bool, limited: bool)
    requires Books(s) && s.delayed < Passing(s)
    ensures var s' := CountDelay(s, wait, channelData, jittered, limited);
            && Books(s') && s'.delayed <= s.delayed + 1
            && s' == s.(delayed := s'.delayed, dataDelayed := s'.dataDelayed, dataJittered := s'.dataJittered,
                        dataBandwidth := s'.dataBandwidth, minDelayMillis := s'.minDelayMillis, maxDelayMillis := s'.maxDelayMillis)
  {
    AddOne(s.delayed);
    BumpOne(s.dataDelayed, channelData);
    BumpOne(s.dataJittered, channelData && jittered);
    BumpOne(s.dataBandwidth, channelData && limited);
  }

  lemma CountDropBooks(s: Stats, channelData: bool)
    requires Books(s) && s.delayed < Passing(s) && s.duplicated < Passing(s) && 2 * s.reordered < Passing(s)
    ensures Books(CountDrop(s, channelData)) && Books(CountMTUDrop(s, channelData))
    ensures CountDrop(s, channelData).dropped == s.dropped + 1
    ensures CountMTUDrop(s, channelData).mtuDropped == s.mtuDropped + 1
  {
    AddOne(s.dropped);
    AddOne(s.mtuDropped);
    BumpOne(s.dataDropped, channelData);
    BumpOne(s.dataMTUDropped, channelData);
  }

  lemma AccountBooks(cfg: Config, s: Stats, sequence: uint64, payload: seq<Byte>)
    requires Books(s) && s.readPackets + 1 < U64
    ensures var s' := Account(cfg, s, sequence, payload);
            && Books(s') && s'.readPackets == s.readPackets + 1
            && Passing(s') == Passing(s) + (if Screen(cfg, sequence, |payload|).Passed? then 1 else 0)
            && s'.duplicated == s.duplicated && s'.reordered == s.reordered
  {
    var size, data := |payload|, IsChannelData(payload);
    var read := CountRead(s, size);
    AddOne(s.readPackets);
    match Screen(cfg, sequence, size)
    case Passed =>
      CountDelayBooks(read, Wait(cfg, sequence, size), data, JitterOffset(cfg, sequence) != 0, cfg.bandwidth > 0 && size > 0);
    case _ =>
      CountDropBooks(read, data);
  }

  lemma AcceptBalanced(cfg: Config, length: nat, m: Machine)
    requires m.pending != [] && m.pending[0].Arrival? && Balanced(m)
    ensures var m' := Accept(cfg, length, m);
            && Balanced(m')
            && m'.sequence == m.sequence + 1
            && Passing(m'.stats) == Passing(m.stats) + |Surviving(cfg, length, m.pending[0], m.sequence)|
            && m'.stats.duplicated == m.stats.duplicated && m'.stats.reordered == m.stats.reordered
  {
    AddOne(m.sequence);
    AccountBooks(cfg, m.stats, m.sequence + 1, Truncate(m.pending[0].datagram, length).payload);
  }

  lemma {:induction false} FetchBalanced(cfg: Config, length: nat, m: Machine)
    requires Balanced(m)
    ensures var (m', f) := Fetch(cfg, length, m);
            && Balanced(m')
            && m.sequence + (if f.Got? then 1 else 0) <= m'.sequence
            && Passing(m'.stats) == Passing(m.stats) + |Found(f)|
            && m'.stats.duplicated == m.stats.duplicated && m'.stats.reordered == m.stats.reordered
    decreases |m.pending|
  {
    if m.pending != [] && m.pending[0].Arrival? {
      AcceptBalanced(cfg, length, m);
      var first := Accept(cfg, length, m);
      if Surviving(cfg, length, m.pending[0], m.sequence) == [] {
        FetchBalanced(cfg, length, first);
      }
    }
  }

  // ---------------------------------------------------------------- conservation

  /** Copies already counted that a failing look-ahead throws away. */
  function Lost(cfg: Config, length: nat, m: Machine): nat {
    if m.ready != [] then 0 else
      var (m1, first) := Fetch(cfg, length, m);
      if first.Got? && Every(cfg.reorderEvery, first.sequence) && AfterLookAhead(cfg, length, m1, Found(first)[0]).1.Broke?
      then |Copies(first.packet, Every(cfg.duplicateEvery, first.sequence))| else 0
  }

  function LostInRun(cfg: Config, lengths: seq<nat>, m: Machine): nat {
    if lengths == [] then 0
    else Lost(cfg, lengths[0], m) + LostInRun(cfg, lengths[1..], Serve(cfg, lengths[0], m).0)
  }

  lemma {:induction false} NoteBalanced(cfg: Config, m: Machine, packet: Datagram, sequence: uint64)
    requires Balanced(m) && m.stats.duplicated < Passing(m.stats)
    ensures var m' := NoteDuplicate(cfg, m, packet, sequence);
            && Balanced(m') && m'.stats == m.stats.(duplicated := m'.stats.duplicated, dataDuplicated := m'.stats.dataDuplicated)
            && m'.stats.duplicated == m.stats.duplicated + |Copies(packet, Every(cfg.duplicateEvery, sequence))| - 1
  {
    AddOne(m.stats.duplicated);
    BumpOne(m.stats.dataDuplicated, IsChannelData(packet.payload));
  }

  lemma ReorderBooks(s: Stats, channelData: bool)
    requires Books(s) && 2 * s.reordered + 2 <= Passing(s)
    ensures Books(CountReorder(s, channelData)) && CountReorder(s, channelData).reordered == s.reordered + 1
  {
    AddOne(s.reordered);
    BumpOne(s.dataReordered, channelData);
  }

  /** Packets and duplicates made so far that are no longer in the queue. */
  function Excess(m: Machine): int {
    Passing(m.stats) + m.stats.duplicated - |m.ready|
  }

  lemma LookAheadBalanced(cfg: Config, length: nat, m: Machine, current: Datagram, copies: seq<Datagram>)
    requires Balanced(m) && m.ready == [] && 2 * m.stats.reordered < Passing(m.stats)
    ensures var (m', o) := LookAhead(cfg, length, m, current, copies);
            && Balanced(m') && |m'.ready| <= |copies| + 1
            && m'.stats.reordered == m.stats.reordered + (if o.Delivered? then 1 else 0)
            && Excess(m') == Excess(m) + (if o.Delivered? then 1 - |copies| else 0)
  {
    FetchBalanced(cfg, length, m);
    var (m1, second) := Fetch(cfg, length, m);
    if second.Got? {
      var data := IsChannelData(current.payload) || IsChannelData(second.packet.payload);
      ReorderBooks(m1.stats, data);
      NoteBalanced(cfg, m1.(stats := CountReorder(m1.stats, data)), second.packet, second.sequence);
    }
  }

  /** One call keeps the books, and every packet it takes in is delivered, queued or lost. */
  lemma ServeConserves(cfg: Config, length: nat, m: Machine)
    requires Balanced(m) && |m.ready| <= 3
    ensures var (m', o) := Serve(cfg, length, m);
            && Balanced(m') && |m'.ready| <= 3
            && Excess(m') == Excess(m) + (if o.Delivered? then 1 else 0) + Lost(cfg, length, m)
  {
    if m.ready == [] {
      FetchBalanced(cfg, length, m);
      var (m1, first) := Fetch(cfg, length, m);
      if first.Got? {
        NoteBalanced(cfg, m1, first.packet, first.sequence);
        if Every(cfg.reorderEvery, first.sequence) {
          var m2 := NoteDuplicate(cfg, m1, first.packet, first.sequence);
          LookAheadBalanced(cfg, length, m2, first.packet, Copies(first.packet, Every(cfg.duplicateEvery, first.sequence)));
        }
      }
    }
  }

  lemma {:induction false} RunConserves(cfg: Config, lengths: seq<nat>, m: Machine)
    requires Balanced(m) && |m.ready| <= 3
    ensures var (m', outcomes) := Run(cfg, lengths, m);
            && Balanced(m') && |m'.ready| <= 3
            && Excess(m') == Excess(m) + |Packets(outcomes)| + LostInRun(cfg, lengths, m)
  {
    if lengths != [] {
      ServeConserves(cfg, lengths[0], m);
      var (m1, o) := Serve(cfg, lengths[0], m);
      RunConserves(cfg, lengths[1..], m1);
      var tail := Run(cfg, lengths[1..], m1).1;
      assert ([o] + tail)[1..] == tail;
    }
  }

  /** Conservation, on every run, failing reads included. */
  lemma Conservation(cfg: Config, lengths: seq<nat>, inputs: seq<Input>)
    requires |inputs| < U64
    ensures var (m', outcomes) := Run(cfg, lengths, Initial(inputs));
            && |Packets(outcomes)| + |m'.ready| + LostInRun(cfg, lengths, Initial(inputs))
               == m'.stats.readPackets - m'.stats.mtuDropped - m'.stats.dropped + m'.stats.duplicated
            && m'.stats.readPackets == m'.sequence
            && Books(m'.stats) && |m'.ready| <= 3
  {
    RunConserves(cfg, lengths, Initial(inputs));
  }
}
