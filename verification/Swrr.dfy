/**
 Smooth weighted round-robin with a health gate.

 Every pick bumps each live peer by its weight, chooses the first peer of largest accumulator
 and takes the live total back from it.  The results count picks over whole runs.
 */
module Swrr {
  import opened Arithmetic
  import opened Targets

  // ----- sums over the live peers

  function LiveSum(s: seq<int>, live: seq<bool>): int
    requires |s| == |live|
  {
    if s == [] then 0
    else LiveSum(s[..|s| - 1], live[..|s| - 1]) + (if live[|s| - 1] then s[|s| - 1] else 0)
  }

  function LiveCount(live: seq<bool>): nat {
    if live == [] then 0 else LiveCount(live[..|live| - 1]) + (if live[|live| - 1] then 1 else 0)
  }

  function Same<T>(n: nat, x: T): (s: seq<T>)
    ensures |s| == n && forall i :: 0 <= i < n ==> s[i] == x
  {
    seq(n, i => x)
  }

  lemma {:induction false} LiveSumOrder(s: seq<int>, t: seq<int>, live: seq<bool>)
    requires |s| == |t| == |live|
    requires forall i :: 0 <= i < |s| && live[i] ==> s[i] <= t[i]
    ensures LiveSum(s, live) <= LiveSum(t, live)
  {
    if s != [] {
      LiveSumOrder(s[..|s| - 1], t[..|s| - 1], live[..|s| - 1]);
    }
  }

  lemma {:induction false} LiveSumUpdate(s: seq<int>, live: seq<bool>, i: nat, x: int)
    requires |s| == |live| && i < |s| && live[i]
    ensures LiveSum(s[i := x], live) == LiveSum(s, live) - s[i] + x
  {
    var n := |s| - 1;
    if i == n {
      assert s[i := x][..n] == s[..n];
    } else {
      LiveSumUpdate(s[..n], live[..n], i, x);
      assert s[i := x][..n] == s[..n][i := x];
    }
  }

  /** Multiplication by repeated addition. */
  function Times(k: nat, x: int): int {
    if k == 0 then 0 else Times(k - 1, x) + x
  }

  lemma {:induction false} TimesIsProduct(k: nat, x: int)
    ensures Times(k, x) == k * x
  {
    if k > 0 {
      TimesIsProduct(k - 1, x);
      OneMore(k - 1, x);
    }
  }

  lemma {:induction false} TimesAdd(k: nat, x: int, y: int, z: int)
    requires x == y + z
    ensures Times(k, x) == Times(k, y) + Times(k, z)
  {
    if k > 0 {
      TimesAdd(k - 1, x, y, z);
    }
  }

  lemma {:induction false} LiveSumSame(live: seq<bool>, x: int)
    ensures LiveSum(Same(|live|, x), live) == Times(LiveCount(live), x)
  {
    if live != [] {
      var n := |live| - 1;
      LiveSumSame(live[..n], x);
      assert Same(|live|, x)[..n] == Same(n, x);
    }
  }

  lemma {:induction false} SomeLive(live: seq<bool>, i: nat)
    requires i < |live| && live[i]
    ensures LiveCount(live) >= 1
  {
    if i < |live| - 1 {
      SomeLive(live[..|live| - 1], i);
    }
  }

  predicate Weights(w: seq<int>) {
    forall i :: 0 <= i < |w| ==> w[i] >= 1
  }

  predicate Any(live: seq<bool>) {
    exists i :: 0 <= i < |live| && live[i]
  }

  lemma {:induction false} TotalPositive(w: seq<int>, live: seq<bool>)
    requires |w| == |live| && Weights(w)
    ensures LiveSum(w, live) >= 0
    ensures Any(live) ==> LiveSum(w, live) >= 1
  {
    if w != [] {
      TotalPositive(w[..|w| - 1], live[..|w| - 1]);
      assert Any(live) ==> live[|w| - 1] || Any(live[..|w| - 1]);
    }
  }

  // ----- one pick

  /** The first live peer of largest accumulator, -1 if nobody is live. */
  function Leader(cur: seq<int>, live: seq<bool>): (b: int)
    requires |cur| == |live|
    ensures -1 <= b < |cur|
  {
    if cur == [] then -1
    else
      var n := |cur| - 1;
      var b := Leader(cur[..n], live[..n]);
      if live[n] && (b < 0 || cur[n] > cur[b]) then n else b
  }

  ghost predicate FirstMax(cur: seq<int>, live: seq<bool>, b: int)
    requires |cur| == |live|
  {
    && 0 <= b < |cur| && live[b]
    && (forall j :: 0 <= j < |cur| && live[j] ==> cur[j] <= cur[b])
    && (forall j :: 0 <= j < b && live[j] ==> cur[j] < cur[b])
  }

  lemma {:induction false} LeaderIsFirstMax(cur: seq<int>, live: seq<bool>)
    requires |cur| == |live|
    ensures if Any(live) then FirstMax(cur, live, Leader(cur, live)) else Leader(cur, live) == -1
  {
    if cur != [] {
      var n := |cur| - 1;
      LeaderIsFirstMax(cur[..n], live[..n]);
      assert Any(live[..n]) ==> Any(live);
    }
  }

  lemma FirstMaxUnique(cur: seq<int>, live: seq<bool>, b: int)
    requires |cur| == |live| && FirstMax(cur, live, b)
    ensures Leader(cur, live) == b
  {
    LeaderIsFirstMax(cur, live);
  }

  function Bumped(cur: seq<int>, w: seq<int>, live: seq<bool>): (r: seq<int>)
    requires |cur| == |w| == |live|
    ensures |r| == |cur| && forall i :: 0 <= i < |cur| ==> r[i] == cur[i] + (if live[i] then w[i] else 0)
  {
    seq(|cur|, i requires 0 <= i < |cur| => cur[i] + (if live[i] then w[i] else 0))
  }

  function Chosen(cur: seq<int>, w: seq<int>, live: seq<bool>): (b: nat)
    requires |cur| == |w| == |live| && Any(live)
    ensures b < |cur| && live[b]
  {
    LeaderIsFirstMax(Bumped(cur, w, live), live);
    Leader(Bumped(cur, w, live), live)
  }

  /** The accumulators after one pick among the live peers. */
  function Served(cur: seq<int>, w: seq<int>, live: seq<bool>): (r: seq<int>)
    requires |cur| == |w| == |live| && Any(live)
    ensures |r| == |cur|
  {
    var bumped, b := Bumped(cur, w, live), Chosen(cur, w, live);
    bumped[b := bumped[b] - LiveSum(w, live)]
  }

  /** A peer that just came back drops its stale accumulator. */
  function Recovered(cur: seq<int>, wasUp: seq<bool>, up: seq<bool>): (r: seq<int>)
    requires |cur| == |wasUp| == |up|
    ensures |r| == |cur| && forall i :: 0 <= i < |cur| ==> r[i] == if up[i] && !wasUp[i] then 0 else cur[i]
  {
    seq(|cur|, i requires 0 <= i < |cur| => if up[i] && !wasUp[i] then 0 else cur[i])
  }

  /** Who is picked among: the peers up, or everyone when the whole pool is gated down. */
  function Pool(up: seq<bool>): (live: seq<bool>)
    ensures |live| == |up|
    ensures |up| > 0 ==> Any(live)
  {
    if Any(up) then up
    else
      var all := Same(|up|, true);
      assert |up| > 0 ==> all[0];
      all
  }

  /** A scan of the first `i` peers has found `b`, the first of largest accumulator so far. */
  ghost predicate Found(bumped: seq<int>, live: seq<bool>, i: int, b: int)
    requires |bumped| == |live| && 0 <= i <= |bumped|
  {
    if b < 0 then forall j :: 0 <= j < i ==> !live[j]
    else
      && b < i && live[b]
      && (forall j :: 0 <= j < i && live[j] ==> bumped[j] <= bumped[b])
      && (forall j :: 0 <= j < b && live[j] ==> bumped[j] < bumped[b])
  }

  lemma FoundNext(bumped: seq<int>, live: seq<bool>, i: nat, b: int)
    requires |bumped| == |live| && i < |bumped| && Found(bumped, live, i, b)
    ensures Found(bumped, live, i + 1, if live[i] && (b < 0 || bumped[i] > bumped[b]) then i else b)
  {
  }

  lemma LiveSumNext(s: seq<int>, live: seq<bool>, i: nat)
    requires |s| == |live| && i < |s|
    ensures LiveSum(s[..i + 1], live[..i + 1]) == LiveSum(s[..i], live[..i]) + (if live[i] then s[i] else 0)
  {
    assert s[..i + 1][..i] == s[..i] && live[..i + 1][..i] == live[..i];
  }

  class Balancer {
    const weights: seq<int>
    const total: int
    var current: seq<int>
    var wasUp: seq<bool>

    ghost predicate Valid()
      reads this
    {
      && |current| == |wasUp| == |weights| && Weights(weights)
      && total == LiveSum(weights, Same(|weights|, true))
    }

    constructor (configured: seq<int>)
      ensures Valid() && |weights| == |configured|
      ensures forall i :: 0 <= i < |configured| ==> weights[i] == EffectiveWeight(configured[i])
      ensures current == Same(|weights|, 0) && wasUp == Same(|weights|, false)
    {
      var w, sum := [], 0;
      for k := 0 to |configured|
        invariant |w| == k && forall i :: 0 <= i < k ==> w[i] == EffectiveWeight(configured[i])
        invariant sum == LiveSum(w, Same(|w|, true))
      {
        ghost var before := w;
        w := w + [EffectiveWeight(configured[k])];
        sum := sum + w[k];
        assert w[..k] == before && Same(|w|, true)[..k] == Same(k, true);
      }
      weights := w;
      total := sum;
      current := Same(|configured|, 0);
      wasUp := Same(|configured|, false);
    }

    /** One pick: the accumulators, the recovery flags and the choice. */
    method Pick(gate: seq<bool>) returns (best: nat)
      requires Valid() && |weights| > 0
      modifies this
      ensures Valid()
      ensures wasUp == Reading(gate, |weights|)
      ensures var kept := Recovered(old(current), old(wasUp), wasUp);
              && best == Chosen(kept, weights, Pool(wasUp))
              && current == Served(kept, weights, Pool(wasUp))
      // the gate is obeyed: a target without an entry is up, and while any is up the others are left alone
      ensures forall j :: 0 <= j < |weights| ==> (wasUp[j] <==> j >= |gate| || gate[j])
      ensures best < |weights| && ((exists j :: 0 <= j < |weights| && wasUp[j]) ==> wasUp[best])
      ensures (exists j :: 0 <= j < |weights| && wasUp[j]) ==>
                forall j :: 0 <= j < |weights| && !wasUp[j] ==> current[j] == old(current)[j]
      // whoever takes part is credited its weight, from zero if it just came back; with nobody up everyone does
      ensures forall j :: 0 <= j < |weights| && wasUp[j] && j != best ==>
                current[j] == weights[j] + if old(wasUp)[j] then old(current)[j] else 0
      ensures (forall j :: 0 <= j < |weights| ==> !wasUp[j]) ==>
                forall j :: 0 <= j < |weights| && j != best ==> current[j] == old(current)[j] + weights[j]
    {
      var liveTotal, b := Scan(gate);
      ghost var kept := Recovered(old(current), old(wasUp), wasUp);
      ghost var bumped := Bumped(kept, weights, wasUp);
      assert current == bumped;
      if b < 0 {
        assert kept == bumped && !Any(wasUp);
        best := PickAllOpen();
        return;
      }
      assert wasUp[b] && Pool(wasUp) == wasUp;
      FirstMaxUnique(bumped, wasUp, b);
      current := current[b := current[b] - liveTotal];
      best := b;
    }

    /** The loop of a pick: recover, bump, total and lead, in one pass over the peers. */
    method Scan(gate: seq<bool>) returns (liveTotal: int, b: int)
      requires Valid()
      modifies this
      ensures Valid() && wasUp == Reading(gate, |weights|)
      ensures current == Bumped(Recovered(old(current), old(wasUp), wasUp), weights, wasUp)
      ensures liveTotal == LiveSum(weights, wasUp)
      ensures b < |weights| && Found(current, wasUp, |weights|, b)
    {
      ghost var up := Reading(gate, |weights|);
      ghost var bumped := Bumped(Recovered(current, wasUp, up), weights, up);
      var n := |weights|;
      liveTotal, b := 0, -1;
      for i := 0 to n
        invariant |current| == n && |wasUp| == n && b < i
        invariant forall j :: 0 <= j < i ==> current[j] == bumped[j] && wasUp[j] == up[j]
        invariant forall j :: i <= j < n ==> current[j] == old(current)[j] && wasUp[j] == old(wasUp)[j]
        invariant liveTotal == LiveSum(weights[..i], up[..i])
        invariant Found(bumped, up, i, b)
      {
        FoundNext(bumped, up, i, b);
        LiveSumNext(weights, up, i);
        var isUp := i >= |gate| || gate[i];
        if isUp && !wasUp[i] {
          current := current[i := 0];
        }
        wasUp := wasUp[i := isUp];
        if isUp {
          current := current[i := current[i] + weights[i]];
          liveTotal := liveTotal + weights[i];
          if b < 0 || current[i] > current[b] {
            b := i;
          }
        }
      }
      assert weights[..n] == weights && up[..n] == up;
      assert wasUp == up && current == bumped;
    }

    /** Every target is gated down: one plain step over the whole pool. */
    method PickAllOpen() returns (best: nat)
      requires Valid() && |weights| > 0
      modifies this`current
      ensures Valid()
      ensures Any(Same(|weights|, true))
      ensures best == Chosen(old(current), weights, Same(|weights|, true))
      ensures current == Served(old(current), weights, Same(|weights|, true))
    {
      ghost var all := Same(|weights|, true);
      assert all[0];
      ghost var bumped := Bumped(current, weights, all);
      var b, n := -1, |weights|;
      for i := 0 to n
        invariant |current| == n && b < i && (i > 0 ==> b >= 0)
        invariant forall j :: 0 <= j < i ==> current[j] == bumped[j]
        invariant forall j :: i <= j < n ==> current[j] == old(current)[j]
        invariant Found(bumped, all, i, b)
      {
        FoundNext(bumped, all, i, b);
        current := current[i := current[i] + weights[i]];
        if b < 0 || current[i] > current[b] {
          b := i;
        }
      }
      assert current == bumped;
      FirstMaxUnique(bumped, all, b);
      current := current[b := current[b] - total];
      best := b;
    }
  }

  // ----- what one pick does to the books

  /** `next` follows `cur` by one pick of `b`, which held the largest bumped accumulator. */
  ghost predicate Step(cur: seq<int>, next: seq<int>, w: seq<int>, live: seq<bool>, b: int) {
    && |cur| == |next| == |w| == |live|
    && 0 <= b < |cur| && live[b]
    && (forall i :: 0 <= i < |cur| ==>
          next[i] == cur[i] + (if live[i] then w[i] else 0) - (if i == b then LiveSum(w, live) else 0))
    && (forall i :: 0 <= i < |cur| && live[i] ==> cur[i] + w[i] <= cur[b] + w[b])
  }

  lemma PickSteps(cur: seq<int>, w: seq<int>, live: seq<bool>)
    requires |cur| == |w| == |live| && Any(live)
    ensures Step(cur, Served(cur, w, live), w, live, Chosen(cur, w, live))
  {
    var bumped := Bumped(cur, w, live);
    LeaderIsFirstMax(bumped, live);
    forall i | 0 <= i < |cur| && live[i]
      ensures cur[i] + w[i] <= cur[Chosen(cur, w, live)] + w[Chosen(cur, w, live)]
    {
      assert bumped[i] <= bumped[Leader(bumped, live)];
    }
  }

  lemma {:induction false} SumMoves(cur: seq<int>, next: seq<int>, w: seq<int>, live: seq<bool>, b: int, back: int)
    requires |cur| == |next| == |w| == |live| && 0 <= b
    requires b < |cur| ==> live[b]
    requires forall i :: 0 <= i < |cur| ==>
               next[i] == cur[i] + (if live[i] then w[i] else 0) - (if i == b then back else 0)
    ensures LiveSum(next, live) == LiveSum(cur, live) + LiveSum(w, live) - (if b < |cur| then back else 0)
  {
    if cur != [] {
      var n := |cur| - 1;
      SumMoves(cur[..n], next[..n], w[..n], live[..n], b, back);
    }
  }

  /** A pick keeps the sum of the live accumulators and leaves the others alone. */
  lemma PickConserves(cur: seq<int>, w: seq<int>, live: seq<bool>)
    requires |cur| == |w| == |live| && Any(live)
    ensures LiveSum(Served(cur, w, live), live) == LiveSum(cur, live)
    ensures forall i :: 0 <= i < |cur| && !live[i] ==> Served(cur, w, live)[i] == cur[i]
  {
    PickSteps(cur, w, live);
    SumMoves(cur, Served(cur, w, live), w, live, Chosen(cur, w, live), LiveSum(w, live));
  }

  /** Whatever the gate did, the accumulators of all peers together lose exactly what recovering peers drop. */
  lemma {:induction false} RecoveryDrops(cur: seq<int>, wasUp: seq<bool>, up: seq<bool>, back: seq<bool>)
    requires |cur| == |wasUp| == |up| == |back|
    requires forall i :: 0 <= i < |cur| ==> back[i] == (up[i] && !wasUp[i])
    ensures LiveSum(Recovered(cur, wasUp, up), Same(|cur|, true))
         == LiveSum(cur, Same(|cur|, true)) - LiveSum(cur, back)
  {
    if cur != [] {
      var n := |cur| - 1;
      RecoveryDrops(cur[..n], wasUp[..n], up[..n], back[..n]);
      assert Recovered(cur, wasUp, up)[..n] == Recovered(cur[..n], wasUp[..n], up[..n]);
      assert Same(|cur|, true)[..n] == Same(n, true);
    }
  }

  /** No step pushes anyone to minus (the starting bound plus the live total), or below. */
  lemma StepFloor(cur: seq<int>, next: seq<int>, w: seq<int>, live: seq<bool>, b: int, a: int)
    requires Step(cur, next, w, live, b) && Weights(w)
    requires LiveSum(cur, live) >= LiveSum(Same(|cur|, -a), live)
    requires forall i :: 0 <= i < |cur| && live[i] ==> cur[i] > -(a + LiveSum(w, live))
    ensures forall i :: 0 <= i < |cur| && live[i] ==> next[i] > -(a + LiveSum(w, live))
  {
    var bumped := Bumped(cur, w, live);
    SumMoves(cur, bumped, w, live, |cur|, 0);
    TotalPositive(w, live);
    assert Any(live);
    if cur[b] + w[b] <= -a {
      LiveSumOrder(bumped, Same(|cur|, -a), live);
      assert false;
    }
  }

  // ----- runs with a fixed live set

  /** The balancer's own run: `picks[k]` is chosen in `states[k]`, which leaves `states[k + 1]`. */
  ghost predicate Run(states: seq<seq<int>>, picks: seq<int>, w: seq<int>, live: seq<bool>) {
    && |states| == |picks| + 1 && |w| == |live| && Any(live)
    && (forall k :: 0 <= k < |states| ==> |states[k]| == |w|)
    && (forall k :: 0 <= k < |picks| ==>
          picks[k] == Chosen(states[k], w, live) && states[k + 1] == Served(states[k], w, live))
  }

  lemma RunExtends(states: seq<seq<int>>, picks: seq<int>, w: seq<int>, live: seq<bool>, next: seq<int>, b: int)
    requires Run(states, picks, w, live)
    requires b == Chosen(states[|picks|], w, live) && next == Served(states[|picks|], w, live)
    ensures Run(states + [next], picks + [b], w, live)
  {
  }

  lemma SteadyGate(cur: seq<int>, up: seq<bool>)
    requires |cur| == |up|
    ensures Recovered(cur, up, up) == cur
  {
  }

  /** Serving `t` requests under a gate that stays put is such a run, from whatever state recovery leaves. */
  method Serve(lb: Balancer, gate: seq<bool>, t: nat) returns (states: seq<seq<int>>, picks: seq<int>)
    requires lb.Valid() && |lb.weights| > 0
    modifies lb
    ensures lb.Valid() && |picks| == t
    ensures Run(states, picks, lb.weights, Pool(Reading(gate, |lb.weights|)))
    ensures states[0] == Recovered(old(lb.current), old(lb.wasUp), Reading(gate, |lb.weights|))
    ensures t > 0 ==> states[t] == lb.current && lb.wasUp == Reading(gate, |lb.weights|)
  {
    var up := Reading(gate, |lb.weights|);
    var first := Recovered(lb.current, lb.wasUp, up);
    states, picks := [first], [];
    while |picks| < t
      invariant lb.Valid() && |picks| <= t
      invariant Run(states, picks, lb.weights, Pool(up)) && states[0] == first
      invariant states[|picks|] == Recovered(lb.current, lb.wasUp, up)
      invariant |picks| > 0 ==> states[|picks|] == lb.current && lb.wasUp == up
    {
      var best := lb.Pick(gate);
      RunExtends(states, picks, lb.weights, Pool(up), lb.current, best);
      SteadyGate(lb.current, up);
      states, picks := states + [lb.current], picks + [best];
    }
  }

  /** What the counting needs of a run; ties may be broken in any way. */
  ghost predicate Steps(states: seq<seq<int>>, picks: seq<int>, w: seq<int>, live: seq<bool>) {
    && |states| == |picks| + 1 && |states[0]| == |w| == |live| && Any(live)
    && (forall k :: 0 <= k < |picks| ==> Step(states[k], states[k + 1], w, live, picks[k]))
  }

  lemma RunSteps(states: seq<seq<int>>, picks: seq<int>, w: seq<int>, live: seq<bool>)
    requires Run(states, picks, w, live)
    ensures Steps(states, picks, w, live)
  {
    forall k | 0 <= k < |picks|
      ensures Step(states[k], states[k + 1], w, live, picks[k])
    {
      PickSteps(states[k], w, live);
    }
  }

  lemma Earlier(states: seq<seq<int>>, picks: seq<int>, w: seq<int>, live: seq<bool>)
    requires Steps(states, picks, w, live) && picks != []
    ensures Steps(states[..|picks|], picks[..|picks| - 1], w, live)
    ensures Step(states[|picks| - 1], states[|picks|], w, live, picks[|picks| - 1])
  {
  }

  /** How often peer `i` was chosen. */
  function Wins(picks: seq<int>, i: int): nat {
    if picks == [] then 0 else Wins(picks[..|picks| - 1], i) + (if picks[|picks| - 1] == i then 1 else 0)
  }

  /** The accumulator is the books: credit for every pick held, debit for every pick won. */
  lemma {:induction false} Books(states: seq<seq<int>>, picks: seq<int>, w: seq<int>, live: seq<bool>, i: nat)
    requires Steps(states, picks, w, live) && i < |w|
    ensures |states[|picks|]| == |w|
    ensures live[i] ==> states[|picks|][i] == states[0][i] + |picks| * w[i] - Wins(picks, i) * LiveSum(w, live)
    ensures !live[i] ==> states[|picks|][i] == states[0][i] && Wins(picks, i) == 0
  {
    if picks != [] {
      var t := |picks| - 1;
      Earlier(states, picks, w, live);
      Books(states[..t + 1], picks[..t], w, live, i);
      OneMore(t, w[i]);
      OneMore(Wins(picks[..t], i), LiveSum(w, live));
    }
  }

  lemma {:induction false} RunConserves(states: seq<seq<int>>, picks: seq<int>, w: seq<int>, live: seq<bool>)
    requires Steps(states, picks, w, live)
    ensures |states[|picks|]| == |w|
    ensures LiveSum(states[|picks|], live) == LiveSum(states[0], live)
  {
    if picks != [] {
      var t := |picks| - 1;
      Earlier(states, picks, w, live);
      RunConserves(states[..t + 1], picks[..t], w, live);
      SumMoves(states[t], states[t + 1], w, live, picks[t], LiveSum(w, live));
    }
  }

  /** The live accumulators lie within [-a, a]. */
  ghost predicate Within(cur: seq<int>, live: seq<bool>, a: int)
    requires |cur| == |live|
  {
    a >= 0 && forall i :: 0 <= i < |cur| && live[i] ==> -a <= cur[i] <= a
  }

  lemma {:induction false} RunFloor(states: seq<seq<int>>, picks: seq<int>, w: seq<int>, live: seq<bool>, a: int)
    requires Steps(states, picks, w, live) && Weights(w) && Within(states[0], live, a)
    ensures |states[|picks|]| == |w|
    ensures forall i :: 0 <= i < |w| && live[i] ==> states[|picks|][i] > -(a + LiveSum(w, live))
  {
    if picks == [] {
      TotalPositive(w, live);
    } else {
      var t := |picks| - 1;
      Earlier(states, picks, w, live);
      RunFloor(states[..t + 1], picks[..t], w, live, a);
      RunConserves(states[..t + 1], picks[..t], w, live);
      LiveSumOrder(Same(|w|, -a), states[0], live);
      StepFloor(states[t], states[t + 1], w, live, picks[t], a);
    }
  }

  /** One live value is at most what the sum leaves when everyone else is at least `lo`. */
  lemma Ceiling(s: seq<int>, live: seq<bool>, i: nat, lo: int)
    requires |s| == |live| && i < |s| && live[i]
    requires forall j :: 0 <= j < |s| && live[j] ==> lo <= s[j]
    ensures s[i] <= LiveSum(s, live) - Times(LiveCount(live), lo) + lo
  {
    LiveSumUpdate(s, live, i, lo);
    LiveSumOrder(Same(|s|, lo), s[i := lo], live);
    LiveSumSame(live, lo);
  }

  // ----- main results

  /** Two states of equal live sum, the first within [-a, a], the second above -b. */
  lemma MostOwed(start: seq<int>, end: seq<int>, live: seq<bool>, i: nat, a: int, b: int, m: nat, reach: int)
    requires |start| == |end| == |live| && i < |live| && live[i] && m == LiveCount(live) && reach == a + b
    requires Within(start, live, a) && LiveSum(start, live) == LiveSum(end, live)
    requires forall j :: 0 <= j < |end| && live[j] ==> -b <= end[j]
    ensures end[i] <= Times(m, reach) - b
  {
    LiveSumOrder(start, Same(|live|, a), live);
    LiveSumSame(live, a);
    var lo := -b;
    Ceiling(end, live, i, lo);
    TimesAdd(m, a, reach, lo);
  }

  /** Live accumulators stay between two bounds that the run's length does not enter. */
  lemma EndBetween(states: seq<seq<int>>, picks: seq<int>, w: seq<int>, live: seq<bool>, a: int, i: nat,
                   total: int, m: nat, reach: int)
    requires Steps(states, picks, w, live) && Weights(w) && Within(states[0], live, a)
    requires i < |w| && live[i] && total == LiveSum(w, live) && m == LiveCount(live) && reach == 2 * a + total
    ensures |states[|picks|]| == |w| && total >= 0
    ensures -(a + total) < states[|picks|][i] <= Times(m, reach) - (a + total)
  {
    RunFloor(states, picks, w, live, a);
    RunConserves(states, picks, w, live);
    TotalPositive(w, live);
    MostOwed(states[0], states[|picks|], live, i, a, a + total, m, reach);
  }

  lemma StepsFair(states: seq<seq<int>>, picks: seq<int>, w: seq<int>, live: seq<bool>, a: int, i: nat,
                  total: int, m: nat, reach: int, debit: int)
    requires Steps(states, picks, w, live) && Weights(w) && Within(states[0], live, a)
    requires i < |w| && live[i] && total == LiveSum(w, live) && m == LiveCount(live) && reach == 2 * a + total
    requires debit == Wins(picks, i) * total
    ensures -Times(m, reach) <= debit - |picks| * w[i] < reach
  {
    Books(states, picks, w, live, i);
    EndBetween(states, picks, w, live, a, i, total, m, reach);
  }

  /**
   From any state, while the live set stays fixed, the picks of a live peer never stray from its share of
   the picks by more than a constant that does not depend on the length of the run: with accumulators that
   start within [-a, a], less than `2a + total` ahead, and at most that much once for every live peer behind.
   */
  lemma FairFromAnyState(states: seq<seq<int>>, picks: seq<int>, w: seq<int>, live: seq<bool>, a: int, i: nat,
                         total: int, m: nat, reach: int)
    requires Run(states, picks, w, live) && Weights(w) && Within(states[0], live, a)
    requires i < |w| && live[i] && total == LiveSum(w, live) && m == LiveCount(live) && reach == 2 * a + total
    ensures -(m * reach) <= Wins(picks, i) * total - |picks| * w[i] < reach
  {
    RunSteps(states, picks, w, live);
    StepsFair(states, picks, w, live, a, i, total, m, reach, Wins(picks, i) * total);
    TimesIsProduct(m, reach);
  }

  predicate Zeroed(cur: seq<int>, live: seq<bool>)
    requires |cur| == |live|
  {
    forall i :: 0 <= i < |cur| && live[i] ==> cur[i] == 0
  }

  lemma ZeroSum(cur: seq<int>, live: seq<bool>)
    requires |cur| == |live| && Zeroed(cur, live)
    ensures LiveSum(cur, live) == 0
  {
    LiveSumOrder(cur, Same(|cur|, 0), live);
    LiveSumOrder(Same(|cur|, 0), cur, live);
    LiveSumSame(live, 0);
    TimesIsProduct(LiveCount(live), 0);
  }

  /** From zeroed accumulators nobody is ever a whole pick ahead of its share, and the sum stays zero. */
  lemma NeverAPickAhead(states: seq<seq<int>>, picks: seq<int>, w: seq<int>, live: seq<bool>, i: nat)
    requires Run(states, picks, w, live) && Weights(w) && Zeroed(states[0], live)
    requires i < |w| && live[i]
    ensures Wins(picks, i) * LiveSum(w, live) < |picks| * w[i] + LiveSum(w, live)
    ensures LiveSum(states[|picks|], live) == 0
  {
    RunSteps(states, picks, w, live);
    Books(states, picks, w, live, i);
    RunFloor(states, picks, w, live, 0);
    RunConserves(states, picks, w, live);
    ZeroSum(states[0], live);
  }

  lemma OneTurnDown(k: int, total: int)
    requires total >= 1 && k <= -1
    ensures k * total <= -total
  {
    AtLeastOnce(total, -k);
    assert total * -k == -(k * total);
  }

  /** A multiple of the total above minus the total is not negative. */
  lemma WholeTurns(k: int, total: int)
    requires total >= 1 && k * total > -total
    ensures k * total >= 0 && (k * total == 0 ==> k == 0)
  {
    if k >= 1 {
      AtLeastOnce(total, k);
    } else if k <= -1 {
      OneTurnDown(k, total);
    }
  }

  /** After one full cycle an accumulator is a multiple of the total, hence not negative. */
  lemma CycleEnd(states: seq<seq<int>>, picks: seq<int>, w: seq<int>, live: seq<bool>, i: nat)
    requires Steps(states, picks, w, live) && Weights(w) && Zeroed(states[0], live)
    requires |picks| == LiveSum(w, live) && i < |w| && live[i]
    ensures |states[|picks|]| == |w|
    ensures states[|picks|][i] >= 0 && (states[|picks|][i] == 0 ==> Wins(picks, i) == w[i])
  {
    TotalPositive(w, live);
    Books(states, picks, w, live, i);
    RunFloor(states, picks, w, live, 0);
    CycleArithmetic(w[i], Wins(picks, i), LiveSum(w, live), states[|picks|][i]);
  }

  lemma CycleArithmetic(weight: int, wins: int, total: int, end: int)
    requires total >= 1 && end == total * weight - wins * total && end > -total
    ensures end >= 0 && (end == 0 ==> wins == weight)
  {
    assert end == (weight - wins) * total;
    WholeTurns(weight - wins, total);
  }

  /** One full cycle: everyone is chosen exactly weight times and every accumulator is back to zero. */
  lemma OneCycleIsExact(states: seq<seq<int>>, picks: seq<int>, w: seq<int>, live: seq<bool>)
    requires Steps(states, picks, w, live) && Weights(w) && Zeroed(states[0], live)
    requires |picks| == LiveSum(w, live)
    ensures |states[|picks|]| == |w| && Zeroed(states[|picks|], live)
    ensures forall i :: 0 <= i < |w| && live[i] ==> Wins(picks, i) == w[i]
  {
    var end := states[|picks|];
    RunConserves(states, picks, w, live);
    ZeroSum(states[0], live);
    TimesIsProduct(LiveCount(live), 0);
    forall i | 0 <= i < |w| && live[i]
      ensures end[i] >= 0
    {
      CycleEnd(states, picks, w, live, i);
    }
    forall i | 0 <= i < |w| && live[i]
      ensures end[i] == 0 && Wins(picks, i) == w[i]
    {
      Ceiling(end, live, i, 0);
      CycleEnd(states, picks, w, live, i);
    }
  }

  lemma {:induction false} WinsAdd(p: seq<int>, q: seq<int>, i: int)
    ensures Wins(p + q, i) == Wins(p, i) + Wins(q, i)
  {
    if q == [] {
      assert p + q == p;
    } else {
      assert (p + q)[..|p + q| - 1] == p + q[..|q| - 1];
      WinsAdd(p, q[..|q| - 1], i);
    }
  }

  lemma Product(k: nat, total: nat)
    ensures k * total >= 0
  {
  }

  lemma StepsFrom(states: seq<seq<int>>, picks: seq<int>, w: seq<int>, live: seq<bool>, t: nat)
    requires Steps(states, picks, w, live) && t <= |picks| && |states[t]| == |w|
    ensures Steps(states[t..], picks[t..], w, live)
  {
    var later, rest := states[t..], picks[t..];
    forall k | 0 <= k < |rest|
      ensures Step(later[k], later[k + 1], w, live, rest[k])
    {
      assert later[k] == states[t + k] && later[k + 1] == states[t + k + 1] && rest[k] == picks[t + k];
    }
  }

  /** One more cycle after `t` picks. */
  lemma LastCycle(states: seq<seq<int>>, picks: seq<int>, w: seq<int>, live: seq<bool>, t: nat, i: nat)
    requires Steps(states, picks, w, live) && Weights(w)
    requires t <= |picks| && |states[t]| == |w| && Zeroed(states[t], live)
    requires i < |w| && live[i] && |picks| == t + LiveSum(w, live)
    ensures |states[|picks|]| == |w| && Zeroed(states[|picks|], live)
    ensures Wins(picks, i) == Wins(picks[..t], i) + w[i]
  {
    StepsFrom(states, picks, w, live, t);
    OneCycleIsExact(states[t..], picks[t..], w, live);
    WinsAdd(picks[..t], picks[t..], i);
    assert picks == picks[..t] + picks[t..];
  }

  lemma {:induction false} CyclesStep(states: seq<seq<int>>, picks: seq<int>, w: seq<int>, live: seq<bool>,
                                      k: nat, i: nat)
    requires Steps(states, picks, w, live) && Weights(w) && Zeroed(states[0], live)
    requires i < |w| && live[i]
    requires |picks| == k * LiveSum(w, live)
    ensures |states[|picks|]| == |w| && Zeroed(states[|picks|], live)
    ensures Wins(picks, i) == k * w[i]
    decreases k
  {
    if k > 0 {
      var total := LiveSum(w, live);
      TotalPositive(w, live);
      OneMore(k - 1, total);
      OneMore(k - 1, w[i]);
      Product(k - 1, total);
      var t := |picks| - total;
      CyclesStep(states[..t + 1], picks[..t], w, live, k - 1, i);
      LastCycle(states, picks, w, live, t, i);
    }
  }

  /** Any number of whole cycles: the share is exact and every accumulator is back to zero. */
  lemma CyclesAreExact(states: seq<seq<int>>, picks: seq<int>, w: seq<int>, live: seq<bool>, k: nat, i: nat)
    requires Run(states, picks, w, live) && Weights(w) && Zeroed(states[0], live)
    requires i < |w| && live[i]
    requires |picks| == k * LiveSum(w, live)
    ensures Zeroed(states[|picks|], live)
    ensures Wins(picks, i) == k * w[i]
  {
    RunSteps(states, picks, w, live);
    CyclesStep(states, picks, w, live, k, i);
  }

  // ----- equal weights

  /** Accumulators part-way through a cycle of equal weights: the first `r` peers have been served. */
  function Partway(n: nat, weight: int, r: nat): (s: seq<int>)
    ensures |s| == n && forall i :: 0 <= i < n ==> s[i] == r * weight - (if i < r then n * weight else 0)
  {
    seq(n, i => r * weight - (if i < r then n * weight else 0))
  }

  lemma {:induction false} EqualTotal(n: nat, weight: int)
    ensures LiveSum(Same(n, weight), Same(n, true)) == n * weight
  {
    if n > 0 {
      EqualTotal(n - 1, weight);
      assert Same(n, weight)[..n - 1] == Same(n - 1, weight);
      assert Same(n, true)[..n - 1] == Same(n - 1, true);
      OneMore(n - 1, weight);
    }
  }

  lemma EqualChosen(n: nat, weight: int, r: nat)
    requires r < n && weight >= 1
    ensures Any(Same(n, true))
    ensures Chosen(Partway(n, weight, r), Same(n, weight), Same(n, true)) == r
  {
    var w, all, cur := Same(n, weight), Same(n, true), Partway(n, weight, r);
    assert all[r];
    var bumped := Bumped(cur, w, all);
    var give := n * weight;
    assert give >= 1;
    OneMore(r, weight);
    assert FirstMax(bumped, all, r);
    FirstMaxUnique(bumped, all, r);
  }

  lemma EqualStep(n: nat, weight: int, r: nat)
    requires r < n && weight >= 1
    ensures Any(Same(n, true))
    ensures Chosen(Partway(n, weight, r), Same(n, weight), Same(n, true)) == r
    ensures Served(Partway(n, weight, r), Same(n, weight), Same(n, true))
         == Partway(n, weight, if r + 1 == n then 0 else r + 1)
  {
    var w, all, cur := Same(n, weight), Same(n, true), Partway(n, weight, r);
    EqualChosen(n, weight, r);
    EqualTotal(n, weight);
    OneMore(r, weight);
    var give, base := n * weight, r * weight;
    var served, next := Served(cur, w, all), Partway(n, weight, if r + 1 == n then 0 else r + 1);
    assert forall i :: 0 <= i < n ==> served[i] == base + weight - (if i <= r then give else 0);
    assert served == next;
  }

  lemma EqualNext(states: seq<seq<int>>, picks: seq<int>, n: nat, weight: int, k: nat, r: nat)
    requires r < n && weight >= 1 && k < |picks|
    requires Run(states, picks, Same(n, weight), Same(n, true)) && states[k] == Partway(n, weight, r)
    ensures picks[k] == r && states[k + 1] == Partway(n, weight, if r + 1 == n then 0 else r + 1)
  {
    EqualStep(n, weight, r);
  }

  /** Whose turn it is after `k` picks. */
  function Turn(k: nat, n: nat): (r: nat)
    requires n > 0
    ensures r < n
  {
    if k == 0 || Turn(k - 1, n) + 1 == n then 0 else Turn(k - 1, n) + 1
  }

  lemma {:induction false} TurnIsMod(k: nat, n: nat)
    requires n > 0
    ensures Turn(k, n) == k % n
  {
    if k > 0 {
      TurnIsMod(k - 1, n);
      NextMod(k - 1, n);
    }
  }

  lemma {:induction false} EqualRotates(states: seq<seq<int>>, picks: seq<int>, n: nat, weight: int, k: nat)
    requires n > 0 && weight >= 1 && k <= |picks|
    requires Run(states, picks, Same(n, weight), Same(n, true)) && states[0] == Same(n, 0)
    ensures states[k] == Partway(n, weight, Turn(k, n))
  {
    if k == 0 {
      assert Same(n, 0) == Partway(n, weight, 0);
    } else {
      EqualRotates(states, picks, n, weight, k - 1);
      EqualNext(states, picks, n, weight, k - 1, Turn(k - 1, n));
    }
  }

  /** With equal weights the k-th pick is target k modulo n: plain round-robin. */
  lemma EqualWeightsRotate(states: seq<seq<int>>, picks: seq<int>, n: nat, weight: int, k: nat)
    requires n > 0 && weight >= 1
    requires Run(states, picks, Same(n, weight), Same(n, true)) && states[0] == Same(n, 0)
    requires k < |picks|
    ensures picks[k] == k % n
  {
    EqualRotates(states, picks, n, weight, k);
    EqualNext(states, picks, n, weight, k, Turn(k, n));
    TurnIsMod(k, n);
  }
}
