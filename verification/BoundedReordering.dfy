/** How far the impairer can move a packet: one place, and never its copies apart. */
module BoundedReordering {
  import opened Impairment
  import opened StreamTransformer

  /** The place a packet is moved to by the greedy pairing. */
  function Partner(cfg: Config, s: seq<Numbered>, i: nat): (p: nat)
    requires i < |s|
    ensures p < |s|
  {
    if |s| >= 2 && Every(cfg.reorderEvery, s[0].sequence) then
      if i == 0 then 1 else if i == 1 then 0 else 2 + Partner(cfg, s[2..], i - 2)
    else if i == 0 then 0
    else 1 + Partner(cfg, s[1..], i - 1)
  }

  /** Swapping is a set of disjoint exchanges of neighbours.  Only a selected packet is
      moved back, and a selected packet that has a successor never keeps its place. */
  lemma {:induction false} SwapExchangesNeighbours(cfg: Config, s: seq<Numbered>, i: nat)
    requires i < |s|
    ensures var p := Partner(cfg, s, i);
            && i - 1 <= p <= i + 1
            && Partner(cfg, s, p) == i
            && Swap(cfg, s)[p] == s[i]
            && (p == i + 1 ==> Every(cfg.reorderEvery, s[i].sequence))
            && (Every(cfg.reorderEvery, s[i].sequence) && i + 1 < |s| ==> p != i)
  {
    if |s| >= 2 && Every(cfg.reorderEvery, s[0].sequence) {
      var rest := s[2..];
      if i >= 2 {
        SwapExchangesNeighbours(cfg, rest, i - 2);
        assert rest[i - 2] == s[i];
      }
    } else if i > 0 {
      var rest := s[1..];
      SwapExchangesNeighbours(cfg, rest, i - 1);
      assert rest[i - 1] == s[i];
    }
  }

  /** Where the copies of packet `i` start once duplicates are inserted. */
  function Start(cfg: Config, s: seq<Numbered>, i: nat): nat
    requires i <= |s|
  {
    if i == 0 then 0 else |Copies(s[0].packet, Twice(cfg, s[0]))| + Start(cfg, s[1..], i - 1)
  }

  lemma {:induction false} CopiesStayTogether(cfg: Config, s: seq<Numbered>, i: nat)
    requires i < |s|
    ensures Start(cfg, s, i) < Start(cfg, s, i + 1) <= |Duplicate(cfg, s)|
    ensures Duplicate(cfg, s)[Start(cfg, s, i)..Start(cfg, s, i + 1)] == Copies(s[i].packet, Twice(cfg, s[i]))
  {
    var first := Copies(s[0].packet, Twice(cfg, s[0]));
    if i == 0 {
      assert Start(cfg, s, 1) == |first| + Start(cfg, s[1..], 0);
    } else {
      CopiesStayTogether(cfg, s[1..], i - 1);
      var from, to := Start(cfg, s[1..], i - 1), Start(cfg, s[1..], i);
      SliceAfter(first, Duplicate(cfg, s[1..]), from, to);
    }
  }

  lemma SliceAfter(first: seq<Datagram>, rest: seq<Datagram>, from: nat, to: nat)
    requires from <= to <= |rest|
    ensures (first + rest)[|first| + from..|first| + to] == rest[from..to]
  {
  }

  lemma {:induction false} CopiesFillTheStream(cfg: Config, s: seq<Numbered>)
    ensures Start(cfg, s, |s|) == |Duplicate(cfg, s)|
  {
    if s != [] {
      CopiesFillTheStream(cfg, s[1..]);
    }
  }

  /** In `output`, all copies of packet `i` of `s` form one block, at most one place from `i`. */
  ghost predicate Placed(cfg: Config, s: seq<Numbered>, output: seq<Datagram>, i: nat)
    requires i < |s|
  {
    var swapped, place := Swap(cfg, s), Partner(cfg, s, i);
    && i - 1 <= place <= i + 1
    && Start(cfg, swapped, place) < Start(cfg, swapped, place + 1) <= |output|
    && output[Start(cfg, swapped, place)..Start(cfg, swapped, place + 1)]
       == Copies(s[i].packet, Every(cfg.duplicateEvery, s[i].sequence))
  }

  lemma BlockOf(cfg: Config, s: seq<Numbered>, i: nat)
    requires i < |s|
    ensures Placed(cfg, s, Duplicate(cfg, Swap(cfg, s)), i)
  {
    SwapExchangesNeighbours(cfg, s, i);
    CopiesStayTogether(cfg, Swap(cfg, s), Partner(cfg, s, i));
  }

  /** In every error-free run, each surviving packet comes out at most one place from where
      it went in, as one block of two copies when its number is a multiple of
      `duplicateEvery` and of one copy otherwise; the blocks make up the whole output. */
  lemma BoundedDisplacement(cfg: Config, length: nat, lengths: seq<nat>, inputs: seq<Input>)
    requires SameLength(length, lengths) && AllDelivered(Run(cfg, lengths, Initial(inputs)).1)
    ensures var (m', outcomes) := Run(cfg, lengths, Initial(inputs));
            var s := SurvivorsOf(cfg, length, lengths, Initial(inputs));
            var output := Packets(outcomes) + m'.ready;
            && (forall i: nat | i < |s| :: Placed(cfg, s, output, i))
            && |output| == Start(cfg, Swap(cfg, s), |s|)
  {
    var m := Initial(inputs);
    RunTransforms(cfg, length, lengths, m);
    var (m', outcomes) := Run(cfg, lengths, m);
    var s := SurvivorsOf(cfg, length, lengths, m);
    assert Packets(outcomes) + m'.ready == Duplicate(cfg, Swap(cfg, s));
    CopiesFillTheStream(cfg, Swap(cfg, s));
    forall i: nat | i < |s|
      ensures Placed(cfg, s, Duplicate(cfg, Swap(cfg, s)), i)
    {
      BlockOf(cfg, s, i);
    }
  }
}
