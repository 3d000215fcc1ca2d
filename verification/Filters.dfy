/** Which packets the impairer lets through, said of the settings, the sizes and the numbers
    alone. */
module Filters {
  import opened Selections
  import opened Impairment
  import opened StreamTransformer
  import opened ImpairmentLaws
  import opened Counters

  // ---------------------------------------------------------------- what arrives

  /** Datagrams cut to the buffer and numbered one after the other, after `last`. */
  ghost predicate NumberedFrom(length: nat, arriving: seq<Input>, arrivals: seq<Numbered>, last: uint64) {
    && |arrivals| == |arriving|
    && forall k | 0 <= k < |arriving| ::
         arriving[k].Arrival? && arrivals[k] == Numbered(Truncate(arriving[k].datagram, length), (last + k + 1) % U64)
  }

  function IsArrival(): Input -> bool {
    (input: Input) => input.Arrival?
  }

  /** The arrivals are the datagrams of the network in their order, cut and numbered. */
  lemma {:induction false} ArrivalsAreNumbered(length: nat, inputs: seq<Input>, last: uint64) returns (arriving: seq<Input>)
    ensures Selects(IsArrival(), inputs, arriving)
    ensures NumberedFrom(length, arriving, Arrivals(length, inputs, last), last)
  {
    if inputs == [] {
      arriving := [];
      SelectsNothing(IsArrival());
    } else {
      var next := NumberAfter(inputs[0], last);
      var rest := ArrivalsAreNumbered(length, inputs[1..], next);
      assert inputs == [inputs[0]] + inputs[1..];
      SelectsFirst(IsArrival(), inputs[0], inputs[1..], rest);
      if inputs[0].Arrival? {
        arriving := [inputs[0]] + rest;
        NumberedFirst(length, inputs[0], rest, Arrivals(length, inputs[1..], next), last);
      } else {
        arriving := rest;
        NothingFirst(rest);
        NothingFirst(Arrivals(length, inputs[1..], next));
      }
    }
  }

  lemma NothingFirst<T>(s: seq<T>)
    ensures [] + s == s
  {
  }

  lemma NumberedFirst(length: nat, input: Input, arriving: seq<Input>, arrivals: seq<Numbered>, last: uint64)
    requires input.Arrival? && NumberedFrom(length, arriving, arrivals, Add64(last, 1))
    ensures NumberedFrom(length, [input] + arriving, [Numbered(Truncate(input.datagram, length), Add64(last, 1))] + arrivals, last)
  {
    var all, numbered := [input] + arriving, [Numbered(Truncate(input.datagram, length), Add64(last, 1))] + arrivals;
    forall k | 0 <= k < |all|
      ensures all[k].Arrival? && numbered[k] == Numbered(Truncate(all[k].datagram, length), (last + k + 1) % U64)
    {
      if k > 0 {
        assert all[k] == arriving[k - 1] && numbered[k] == arrivals[k - 1];
        NextNumber(last, k);
      }
    }
  }

  lemma NextNumber(last: uint64, k: int)
    requires k > 0
    ensures (Add64(last, 1) + (k - 1) + 1) % U64 == (last + k + 1) % U64
  {
  }

  /** What arrives during a run. */
  ghost function ArrivalsOf(cfg: Config, length: nat, lengths: seq<nat>, m: Machine): seq<Numbered> {
    RunReaches(cfg, lengths, m);
    Arrivals(length, Consumed(m, Run(cfg, lengths, m).0), m.sequence)
  }

  /** The arrivals of a run are numbered from 1. */
  lemma RunNumbers(cfg: Config, length: nat, lengths: seq<nat>, inputs: seq<Input>)
    requires |inputs| < U64
    ensures var arrivals := ArrivalsOf(cfg, length, lengths, Initial(inputs));
            |arrivals| <= |inputs| && forall k | 0 <= k < |arrivals| :: arrivals[k].sequence == k + 1
  {
    RunReaches(cfg, lengths, Initial(inputs));
    var consumed := Consumed(Initial(inputs), Run(cfg, lengths, Initial(inputs)).0);
    var arriving := ArrivalsAreNumbered(length, consumed, 0);
    SelectionIsShorter(IsArrival(), consumed, arriving);
    NumberedFromOne(length, arriving, Arrivals(length, consumed, 0));
  }

  lemma NumberedFromOne(length: nat, arriving: seq<Input>, arrivals: seq<Numbered>)
    requires NumberedFrom(length, arriving, arrivals, 0) && |arriving| < U64
    ensures forall k | 0 <= k < |arrivals| :: arrivals[k].sequence == k + 1
  {
  }

  // ---------------------------------------------------------------- what passes

  /** A packet passes when it is within the MTU and not due to be dropped; a limit of zero or
      less and a period of zero are switched off. */
  function Passes(cfg: Config): Numbered -> bool {
    (p: Numbered) => (cfg.mtu <= 0 || |p.packet.payload| <= cfg.mtu) && (cfg.dropEvery == 0 || p.sequence % cfg.dropEvery != 0)
  }

  lemma SurvivingPasses(cfg: Config, length: nat, input: Input, last: uint64)
    requires input.Arrival?
    ensures var a := ArrivalOf(length, input, last)[0];
            Surviving(cfg, length, input, last) == if Passes(cfg)(a) then [a] else []
  {
  }

  /** The survivors are exactly the arrivals that pass, in their order. */
  lemma {:induction false} SurvivorsPass(cfg: Config, length: nat, inputs: seq<Input>, last: uint64)
    ensures Selects(Passes(cfg), Arrivals(length, inputs, last), Survivors(cfg, length, inputs, last))
  {
    if inputs == [] {
      SelectsNothing(Passes(cfg));
    } else {
      var next := NumberAfter(inputs[0], last);
      var arrivals, survivors := Arrivals(length, inputs[1..], next), Survivors(cfg, length, inputs[1..], next);
      SurvivorsPass(cfg, length, inputs[1..], next);
      if inputs[0].Arrival? {
        SurvivingPasses(cfg, length, inputs[0], last);
        SelectsFirst(Passes(cfg), ArrivalOf(length, inputs[0], last)[0], arrivals, survivors);
      } else {
        assert [] + arrivals == arrivals && [] + survivors == survivors;
      }
    }
  }

  /** Over every run, failing reads included, an arrival survives if and only if it is within
      the MTU and its number is not a multiple of `dropEvery`. */
  lemma RunFilters(cfg: Config, length: nat, lengths: seq<nat>, m: Machine)
    ensures Selects(Passes(cfg), ArrivalsOf(cfg, length, lengths, m), SurvivorsOf(cfg, length, lengths, m))
  {
    RunReaches(cfg, lengths, m);
    SurvivorsPass(cfg, length, Consumed(m, Run(cfg, lengths, m).0), m.sequence);
  }

  // ---------------------------------------------------------------- what is counted as dropped

  /** The two drop counters: packets above the MTU, and of the others those whose number is a
      multiple of `dropEvery`.  A packet above the MTU is never counted as a periodic drop. */
  lemma DropCounters(cfg: Config, length: nat, lengths: seq<nat>, inputs: seq<Input>)
    requires |inputs| < U64 && SameLength(length, lengths)
    ensures var stats := Run(cfg, lengths, Initial(inputs)).0.stats;
            var arrivals := ArrivalsOf(cfg, length, lengths, Initial(inputs));
            && stats.readPackets == |arrivals|
            && stats.mtuDropped == CountIf((p: Numbered) => cfg.mtu > 0 && |p.packet.payload| > cfg.mtu, arrivals)
            && stats.dropped == CountIf((p: Numbered) => (cfg.mtu <= 0 || |p.packet.payload| <= cfg.mtu)
                                                         && cfg.dropEvery > 0 && p.sequence % cfg.dropEvery == 0, arrivals)
  {
    var arrivals := ArrivalsOf(cfg, length, lengths, Initial(inputs));
    ArrivalCounters(cfg, ReadPackets, length, lengths, inputs);
    CountAll(Applying(cfg, ReadPackets), arrivals);
    ArrivalCounters(cfg, MTUDropped, length, lengths, inputs);
    CountIfAgrees(Applying(cfg, MTUDropped), (p: Numbered) => cfg.mtu > 0 && |p.packet.payload| > cfg.mtu, arrivals);
    ArrivalCounters(cfg, Dropped, length, lengths, inputs);
    CountIfAgrees(Applying(cfg, Dropped), (p: Numbered) => (cfg.mtu <= 0 || |p.packet.payload| <= cfg.mtu)
                                                           && cfg.dropEvery > 0 && p.sequence % cfg.dropEvery == 0, arrivals);
  }

  lemma {:induction false} CountAll<T>(p: T -> bool, s: seq<T>)
    requires forall x <- s :: p(x)
    ensures CountIf(p, s) == |s|
  {
    if s != [] {
      assert s[0] in s;
      CountAll(p, s[1..]);
    }
  }

  // ---------------------------------------------------------------- what is delivered

  lemma {:induction false} FetchWithin(cfg: Config, length: nat, m: Machine)
    requires cfg.mtu > 0
    ensures var f := Fetch(cfg, length, m).1; f.Got? ==> |f.packet.payload| <= cfg.mtu
    decreases |m.pending|
  {
    if m.pending != [] && m.pending[0].Arrival? {
      FetchUnfolds(cfg, length, m);
      SurvivingPasses(cfg, length, m.pending[0], m.sequence);
      if Surviving(cfg, length, m.pending[0], m.sequence) == [] {
        FetchWithin(cfg, length, Accept(cfg, length, m));
      }
    }
  }

  lemma ServeWithin(cfg: Config, length: nat, m: Machine)
    requires cfg.mtu > 0 && Fits(cfg.mtu, m.ready)
    ensures var (m', o) := Serve(cfg, length, m);
            Fits(cfg.mtu, m'.ready) && (o.Delivered? ==> |o.packet.payload| <= cfg.mtu)
  {
    if m.ready != [] {
      assert m.ready[0] in m.ready;
    } else {
      var (m1, first) := Fetch(cfg, length, m);
      FetchWithin(cfg, length, m);
      if first.Got? {
        FetchWithin(cfg, length, NoteDuplicate(cfg, m1, first.packet, first.sequence));
      }
    }
  }

  /** With an MTU nothing longer is ever delivered or queued, whatever the buffers. */
  lemma {:induction false} NothingAboveMtu(cfg: Config, lengths: seq<nat>, m: Machine)
    requires cfg.mtu > 0 && Fits(cfg.mtu, m.ready)
    ensures var (m', outcomes) := Run(cfg, lengths, m);
            Fits(cfg.mtu, m'.ready) && Fits(cfg.mtu, Packets(outcomes))
  {
    if lengths != [] {
      var (m1, o) := Serve(cfg, lengths[0], m);
      var tail := Run(cfg, lengths[1..], m1).1;
      ServeWithin(cfg, lengths[0], m);
      NothingAboveMtu(cfg, lengths[1..], m1);
      assert ([o] + tail)[1..] == tail;
    }
  }
}
