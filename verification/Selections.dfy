/** What it means to pick some elements of a list and leave them in order: said by position,
    so that order and repetitions are part of it. */
module Selections {

  /** `r` is what stands in `s` at the increasing positions `at`. */
  ghost predicate StandsAt<T>(r: seq<T>, s: seq<T>, at: seq<nat>) {
    && |r| == |at|
    && (forall k | 0 <= k < |at| :: at[k] < |s| && r[k] == s[at[k]])
    && forall j, k | 0 <= j < k < |at| :: at[j] < at[k]
  }

  /** `at` are the positions of the elements of `s` that satisfy `p`. */
  ghost predicate Positions<T>(p: T -> bool, s: seq<T>, at: seq<nat>) {
    forall i: nat | i < |s| :: i in at <==> p(s[i])
  }

  /** `r` are exactly the elements of `s` that satisfy `p`, in their order. */
  ghost predicate Selects<T>(p: T -> bool, s: seq<T>, r: seq<T>) {
    exists at: seq<nat> :: StandsAt(r, s, at) && Positions(p, s, at)
  }

  // ---------------------------------------------------------------- building a selection

  function Shift(at: seq<nat>): (shifted: seq<nat>)
    ensures |shifted| == |at| && forall k | 0 <= k < |at| :: shifted[k] == at[k] + 1
  {
    seq(|at|, k requires 0 <= k < |at| => at[k] + 1)
  }

  lemma ShiftHas(at: seq<nat>, i: nat)
    ensures i in Shift(at) <==> i > 0 && i - 1 in at
  {
    if i > 0 && i - 1 in at {
      var k :| 0 <= k < |at| && at[k] == i - 1;
      assert Shift(at)[k] == i;
    }
  }

  lemma SelectsNothing<T>(p: T -> bool)
    ensures Selects(p, [], [])
  {
    assert StandsAt<T>([], [], []);
  }

  lemma SelectsBy<T>(p: T -> bool, s: seq<T>, r: seq<T>, at: seq<nat>)
    requires StandsAt(r, s, at) && Positions(p, s, at)
    ensures Selects(p, s, r)
  {
  }

  lemma StandsAfter<T>(r: seq<T>, x: T, s: seq<T>, at: seq<nat>)
    requires StandsAt(r, s, at)
    ensures StandsAt(r, [x] + s, Shift(at))
  {
  }

  lemma StandsWith<T>(r: seq<T>, x: T, s: seq<T>, at: seq<nat>)
    requires StandsAt(r, [x] + s, Shift(at))
    ensures StandsAt([x] + r, [x] + s, [0] + Shift(at))
  {
    var at' := [0] + Shift(at);
    forall j, k | 0 <= j < k < |at'|
      ensures at'[j] < at'[k]
    {
      assert at'[k] == Shift(at)[k - 1];
    }
  }

  lemma PositionsAfter<T>(p: T -> bool, x: T, s: seq<T>, at: seq<nat>)
    requires Positions(p, s, at)
    ensures Positions(p, [x] + s, if p(x) then [0] + Shift(at) else Shift(at))
  {
    forall i: nat | i < |[x] + s|
      ensures i in Shift(at) <==> i > 0 && p(([x] + s)[i])
    {
      ShiftHas(at, i);
    }
  }

  /** One more element in front. */
  lemma SelectsFirst<T>(p: T -> bool, x: T, s: seq<T>, r: seq<T>)
    requires Selects(p, s, r)
    ensures Selects(p, [x] + s, (if p(x) then [x] else []) + r)
  {
    var at: seq<nat> :| StandsAt(r, s, at) && Positions(p, s, at);
    PositionsAfter(p, x, s, at);
    StandsAfter(r, x, s, at);
    if p(x) {
      StandsWith(r, x, s, at);
      SelectsBy(p, [x] + s, [x] + r, [0] + Shift(at));
    } else {
      SelectsBy(p, [x] + s, r, Shift(at));
      assert [] + r == r;
    }
  }

  /** The same, for the head of a list. */
  lemma SelectsHead<T>(p: T -> bool, s: seq<T>, r: seq<T>)
    requires s != [] && Selects(p, s[1..], r)
    ensures Selects(p, s, (if p(s[0]) then [s[0]] else []) + r)
  {
    SelectsFirst(p, s[0], s[1..], r);
    assert s == [s[0]] + s[1..];
  }

  lemma StandsBefore<T>(r: seq<T>, s: seq<T>, x: T, at: seq<nat>)
    requires StandsAt(r, s, at)
    ensures StandsAt(r, s + [x], at) && StandsAt(r + [x], s + [x], at + [|s|])
  {
  }

  lemma PositionsBefore<T>(p: T -> bool, r: seq<T>, s: seq<T>, x: T, at: seq<nat>)
    requires StandsAt(r, s, at) && Positions(p, s, at)
    ensures Positions(p, s + [x], if p(x) then at + [|s|] else at)
  {
    assert |s| !in at;
  }

  lemma SelectsLastAt<T>(p: T -> bool, s: seq<T>, x: T, r: seq<T>, at: seq<nat>)
    requires StandsAt(r, s, at) && Positions(p, s, at)
    ensures Selects(p, s + [x], if p(x) then r + [x] else r)
  {
    PositionsBefore(p, r, s, x, at);
    StandsBefore(r, s, x, at);
    if p(x) {
      SelectsBy(p, s + [x], r + [x], at + [|s|]);
    } else {
      SelectsBy(p, s + [x], r, at);
    }
  }

  /** The wanted numbers below `n`, in order. */
  ghost function Below(wanted: nat -> bool, n: nat): (at: seq<nat>)
    ensures forall k | 0 <= k < |at| :: at[k] < n
    ensures forall j, k | 0 <= j < k < |at| :: at[j] < at[k]
  {
    if n == 0 then [] else if wanted(n - 1) then Below(wanted, n - 1) + [n - 1] else Below(wanted, n - 1)
  }

  lemma {:induction false} BelowHas(wanted: nat -> bool, n: nat, i: nat)
    ensures i in Below(wanted, n) <==> i < n && wanted(i)
  {
    if n > 0 {
      BelowHas(wanted, n - 1, i);
    }
  }

  /** One more element at the end. */
  lemma SelectsLast<T>(p: T -> bool, s: seq<T>, x: T, r: seq<T>)
    requires Selects(p, s, r)
    ensures Selects(p, s + [x], r + if p(x) then [x] else [])
  {
    var at: seq<nat> :| StandsAt(r, s, at) && Positions(p, s, at);
    SelectsLastAt(p, s, x, r, at);
    assert r + [] == r;
  }

  // ---------------------------------------------------------------- selections are unique

  /** There is one way to pick: a selection is determined by the list and the property. */
  lemma {:induction false} SelectionIsUnique<T>(p: T -> bool, s: seq<T>, q: seq<T>, r: seq<T>)
    requires Selects(p, s, q) && Selects(p, s, r)
    ensures q == r
  {
    var at: seq<nat> :| StandsAt(q, s, at) && Positions(p, s, at);
    var bt: seq<nat> :| StandsAt(r, s, bt) && Positions(p, s, bt);
    SamePositions(at, bt, |s|);
  }

  lemma {:induction false} SamePositions(at: seq<nat>, bt: seq<nat>, n: nat)
    requires forall k | 0 <= k < |at| :: at[k] < n
    requires forall k | 0 <= k < |bt| :: bt[k] < n
    requires forall j, k | 0 <= j < k < |at| :: at[j] < at[k]
    requires forall j, k | 0 <= j < k < |bt| :: bt[j] < bt[k]
    requires forall i: nat | i < n :: i in at <==> i in bt
    ensures at == bt
    decreases |at| + |bt|
  {
    if at == [] || bt == [] {
      HeadIsIn(at);
      HeadIsIn(bt);
    } else {
      var k := |at| - 1;
      var l := |bt| - 1;
      assert at[k] in at && bt[l] in bt;
      assert at[k] == bt[l];
      forall i: nat | i < at[k]
        ensures (i in at[..k] <==> i in at) && (i in bt[..l] <==> i in bt)
      {
        LastIsNotBefore(at, i);
        LastIsNotBefore(bt, i);
      }
      SamePositions(at[..k], bt[..l], at[k]);
      assert at == at[..k] + [at[k]] && bt == bt[..l] + [bt[l]];
    }
  }

  lemma HeadIsIn(at: seq<nat>)
    ensures at == [] || at[0] in at
  {
  }

  lemma LastIsNotBefore(at: seq<nat>, i: nat)
    requires at != [] && i != at[|at| - 1]
    ensures i in at[..|at| - 1] <==> i in at
  {
    assert at == at[..|at| - 1] + [at[|at| - 1]];
  }

  lemma SelectionIsShorter<T>(p: T -> bool, s: seq<T>, r: seq<T>)
    requires Selects(p, s, r)
    ensures |r| <= |s|
  {
    var at: seq<nat> :| StandsAt(r, s, at) && Positions(p, s, at);
    IncreasingIsShort(at, |s|);
  }

  lemma {:induction false} IncreasingIsShort(at: seq<nat>, n: nat)
    requires forall k | 0 <= k < |at| :: at[k] < n
    requires forall j, k | 0 <= j < k < |at| :: at[j] < at[k]
    ensures |at| <= n
    decreases |at|
  {
    if at != [] {
      IncreasingIsShort(at[..|at| - 1], at[|at| - 1]);
    }
  }

  lemma SelectedSatisfies<T>(p: T -> bool, s: seq<T>, r: seq<T>, x: T)
    requires Selects(p, s, r)
    ensures x in r <==> x in s && p(x)
  {
    var at: seq<nat> :| StandsAt(r, s, at) && Positions(p, s, at);
    if x in r {
      var k :| 0 <= k < |r| && r[k] == x;
      assert at[k] in at;
    }
    if x in s && p(x) {
      var i :| 0 <= i < |s| && s[i] == x;
      var k :| 0 <= k < |at| && at[k] == i;
      assert r[k] == x;
    }
  }

  lemma SelectsNone<T>(p: T -> bool, s: seq<T>, r: seq<T>)
    requires Selects(p, s, r) && forall x <- s :: !p(x)
    ensures r == []
  {
    var at: seq<nat> :| StandsAt(r, s, at) && Positions(p, s, at);
    HeadIsIn(at);
  }
}
