/**
 The selection of the least-connection balancer, on a pool nobody else is touching: the rotating
 scan, the bulkhead caps, the health gate and its fail-open, and the reasons for shedding.
 */
module LeastConn {
  import opened Arithmetic
  import opened Targets

  const UINT32 := 0x1_0000_0000

  datatype Peer = Peer(weight: int, cap: int, active: int)

  /** The index that the k-th look of a scan starting at `start` lands on, added in 64 bits. */
  function Look(start: nat, n: nat, k: nat): (i: nat)
    requires n > 0
    ensures i < n
  {
    (start + k) % n
  }

  predicate UnderCap(p: Peer) {
    p.cap == 0 || p.active < p.cap
  }

  /** May be chosen: under its cap, and up unless the gate is ignored. */
  predicate Eligible(peers: seq<Peer>, up: seq<bool>, ignoreGate: bool, i: int)
    requires |up| == |peers| && 0 <= i < |peers|
  {
    (ignoreGate || up[i]) && UnderCap(peers[i])
  }

  /** Load compared as fractions: active/weight of `p` is below that of `q`. */
  predicate Lighter(p: Peer, q: Peer) {
    p.active * q.weight < q.active * p.weight
  }

  predicate Weighted(peers: seq<Peer>) {
    forall i :: 0 <= i < |peers| ==> peers[i].weight >= 1
  }

  /** `best` is the first lightest eligible peer among the first `k` looks; -1 when none is eligible. */
  ghost predicate Leads(peers: seq<Peer>, up: seq<bool>, ignoreGate: bool, start: nat, k: nat, at: int)
    requires |up| == |peers| > 0 && k <= |peers|
  {
    var n := |peers|;
    if at < 0 then forall j: nat :: j < k ==> !Eligible(peers, up, ignoreGate, Look(start, n, j))
    else
      && at < k && Eligible(peers, up, ignoreGate, Look(start, n, at))
      && (forall j: nat :: j < k && Eligible(peers, up, ignoreGate, Look(start, n, j)) ==>
            !Lighter(peers[Look(start, n, j)], peers[Look(start, n, at)]))
      && (forall j: nat :: j < at && Eligible(peers, up, ignoreGate, Look(start, n, j)) ==>
            Lighter(peers[Look(start, n, at)], peers[Look(start, n, j)]))
  }

  /** A weak then a strict step down is a strict step down, whatever the (positive) weights. */
  lemma LighterThan(a: int, u: int, b: int, v: int, c: int, w: int)
    requires u >= 1 && v >= 1 && w >= 1
    requires a * v < b * u          // a/u < b/v
    requires b * w <= c * v         // b/v <= c/w
    ensures a * w < c * u           // a/u < c/w
  {
    Scale(a * v, b * u, w);
    assert b * u * w == b * w * u;
    ScaleLe(b * w, c * v, u);
    assert a * v * w == a * w * v && c * v * u == c * u * v;
    Unscale(a * w, c * u, v);
  }

  lemma Scale(x: int, y: int, k: int)
    requires x < y && k >= 1
    ensures x * k < y * k
  {
  }

  lemma ScaleLe(x: int, y: int, k: int)
    requires x <= y && k >= 1
    ensures x * k <= y * k
  {
  }

  lemma Unscale(x: int, y: int, k: int)
    requires x * k < y * k && k >= 1
    ensures x < y
  {
  }

  lemma LeadsNext(peers: seq<Peer>, up: seq<bool>, ignoreGate: bool, start: nat, k: nat, at: int)
    requires |up| == |peers| > 0 && k < |peers| && Weighted(peers)
    requires Leads(peers, up, ignoreGate, start, k, at)
    ensures var i := Look(start, |peers|, k);
            var next := if Eligible(peers, up, ignoreGate, i)
                           && (at < 0 || Lighter(peers[i], peers[Look(start, |peers|, at)])) then k else at;
            Leads(peers, up, ignoreGate, start, k + 1, next)
  {
    var n := |peers|;
    var p := peers[Look(start, n, k)];
    if at >= 0 && Lighter(p, peers[Look(start, n, at)]) {
      var b := peers[Look(start, n, at)];
      forall j: nat | j < k && Eligible(peers, up, ignoreGate, Look(start, n, j))
        ensures Lighter(p, peers[Look(start, n, j)])
      {
        var q := peers[Look(start, n, j)];
        LighterThan(p.active, p.weight, b.active, b.weight, q.active, q.weight);
      }
    }
  }

  predicate AnyUp(up: seq<bool>) {
    exists i :: 0 <= i < |up| && up[i]
  }

  datatype Reason = Saturated | AllDark
  /** A claim names the peer and its place in the rotation. */
  datatype Choice = Claimed(at: nat, i: nat) | Shed(reason: Reason)

  /**
   The gate is ignored exactly when nobody is up; the choice is the first lightest eligible peer in rotation
   order and only its count moves; shedding happens exactly when nobody is eligible, and says why.
   */
  ghost predicate Outcome(before: seq<Peer>, after: seq<Peer>, up: seq<bool>, start: nat, c: Choice)
    requires |up| == |before| > 0
  {
    match c
    case Claimed(at, i) =>
      && at < |before| && i == Look(start, |before|, at)
      && Leads(before, up, !AnyUp(up), start, |before|, at)
      && after == before[i := before[i].(active := before[i].active + 1)]
    case Shed(reason) =>
      && after == before
      && Leads(before, up, !AnyUp(up), start, |before|, -1)
      && reason == (if AnyUp(up) then Saturated else AllDark)
  }

  class Balancer {
    var peers: seq<Peer>
    var cursor: nat

    ghost predicate Valid()
      reads this
    {
      Weighted(peers) && 0 < |peers| < UINT32 && cursor < UINT32
    }

    /** A cap below one means unbounded. */
    constructor (weights: seq<int>, maxConcurrent: seq<int>)
      requires 0 < |weights| == |maxConcurrent| < UINT32
      ensures Valid() && |peers| == |weights| && cursor == 0
      ensures forall i :: 0 <= i < |weights| ==> peers[i].weight == EffectiveWeight(weights[i]) && peers[i].active == 0
      ensures forall i :: 0 <= i < |weights| ==> peers[i].cap == if maxConcurrent[i] > 0 then maxConcurrent[i] else 0
    {
      peers := seq(|weights|, i requires 0 <= i < |weights| =>
        Peer(EffectiveWeight(weights[i]), if maxConcurrent[i] > 0 then maxConcurrent[i] else 0, 0));
      cursor := 0;
    }

    /** One look over the pool: the position in the rotation of the choice, or -1, and whether anyone was up. */
    method Scan(gate: seq<bool>, failOpen: bool, start: nat) returns (at: int, sawUp: bool)
      requires Valid()
      ensures at < |peers| && Leads(peers, Reading(gate, |peers|), failOpen, start, |peers|, at)
      ensures sawUp <==> !failOpen && AnyUp(Reading(gate, |peers|))
    {
      var n := |peers|;
      ghost var up := Reading(gate, n);
      at, sawUp := -1, false;
      for k := 0 to n
        invariant at < k && Leads(peers, up, failOpen, start, k, at)
        invariant sawUp <==> !failOpen && exists j: nat :: j < k && up[Look(start, n, j)]
      {
        LeadsNext(peers, up, failOpen, start, k, at);
        var i := Look(start, n, k);
        var isUp := i >= |gate| || gate[i];
        if !failOpen && isUp {
          sawUp := true;
        }
        if failOpen || isUp {
          var c := peers[i];
          if UnderCap(c) && (at < 0 || Lighter(c, peers[Look(start, n, at)])) {
            at := k;
          }
        }
      }
      SawUpMeansAnyUp(up, start);
    }

    /** Takes the slot; with nobody else running the compare-and-swap succeeds. */
    method Claim(i: nat)
      requires Valid() && i < |peers|
      modifies this`peers
      ensures Valid() && peers == old(peers)[i := old(peers)[i].(active := old(peers)[i].active + 1)]
    {
      peers := peers[i := peers[i].(active := peers[i].active + 1)];
    }

    /** The whole selection: scan, fail open over a dark pool, claim or shed. */
    method Pick(gate: seq<bool>) returns (c: Choice)
      requires Valid()
      modifies this
      ensures Valid() && cursor == (old(cursor) + 1) % UINT32
      ensures Outcome(old(peers), peers, Reading(gate, |old(peers)|), old(cursor), c)
    {
      var start := cursor;
      cursor := (cursor + 1) % UINT32;
      var failOpen := false;
      while true
        invariant Valid() && peers == old(peers) && cursor == (old(cursor) + 1) % UINT32
        invariant failOpen ==> !AnyUp(Reading(gate, |peers|))
        decreases !failOpen
      {
        var at, sawUp := Scan(gate, failOpen, start);
        if at < 0 {
          if !failOpen && !sawUp {
            failOpen := true;
            continue;
          }
          return Shed(if sawUp then Saturated else AllDark);
        }
        var i := Look(start, |peers|, at);
        Claim(i);
        return Claimed(at, i);
      }
    }
  }

  // ----- the rotation visits everyone once

  /** Looks land on different indices. */
  lemma LooksDiffer(start: nat, n: nat, j: nat, k: nat)
    requires n > 0 && j < k < n
    ensures Look(start, n, j) != Look(start, n, k)
  {
    var x, y := start + j, start + k;
    if x % n == y % n {
      var d := y / n - x / n;
      assert k - j == n * d;
      if d >= 1 {
        AtLeastOnce(n, d);
      } else {
        NoMore(n, d);
      }
      assert false;
    }
  }

  /** Every index is looked at. */
  lemma LooksCover(start: nat, n: nat, i: nat) returns (k: nat)
    requires i < n
    ensures k < n && Look(start, n, k) == i
  {
    var q, s := start / n, start % n;
    if i >= s {
      k := i - s;
      DivMod(q, i, n, start + k);
    } else {
      k := i - s + n;
      assert start + k == n * (q + 1) + i;
      DivMod(q + 1, i, n, start + k);
    }
  }

  lemma SawUpMeansAnyUp(up: seq<bool>, start: nat)
    requires |up| > 0
    ensures (exists j: nat :: j < |up| && up[Look(start, |up|, j)]) <==> AnyUp(up)
  {
    if AnyUp(up) {
      var i :| 0 <= i < |up| && up[i];
      var k := LooksCover(start, |up|, i);
    }
  }

  /** The looks go round: from the cursor's own index, one further each time, back to 0 after the last. */
  lemma LooksRotate(start: nat, n: nat, k: nat)
    requires n > 0
    ensures Look(start, n, 0) == start % n
    ensures Look(start, n, k + 1) == if Look(start, n, k) + 1 == n then 0 else Look(start, n, k) + 1
  {
    NextMod(start + k, n);
  }

  /** The cross-multiplied comparison is that of the fractions load over weight. */
  lemma LighterIsFraction(p: Peer, q: Peer)
    requires p.weight >= 1 && q.weight >= 1
    ensures Lighter(p, q) <==> p.active as real / p.weight as real < q.active as real / q.weight as real
  {
    var x, y := p.active as real / p.weight as real, q.active as real / q.weight as real;
    var u, v := p.weight as real, q.weight as real;
    assert x * u == p.active as real && y * v == q.active as real;
    assert x * u * v == (p.active * q.weight) as real;
    assert y * v * u == (q.active * p.weight) as real;
    Rescaled(x, y, u * v);
  }

  lemma Rescaled(x: real, y: real, k: real)
    requires k > 0.0
    ensures x < y <==> x * k < y * k
  {
  }

  /** A target that counts for a pick: up, or anyone when nobody is. */
  predicate Counts(up: seq<bool>, i: int)
    requires 0 <= i < |up|
  {
    up[i] || forall j :: 0 <= j < |up| ==> !up[j]
  }

  /** What a pick comes to, in loads, weights and caps: a claim goes to a target that counts and has room,
      of least load over weight among those; a pick sheds if and only if all that count are at their caps,
      as saturated exactly when one of them is up. */
  lemma PickMeans(before: seq<Peer>, after: seq<Peer>, up: seq<bool>, start: nat, c: Choice)
    requires |up| == |before| > 0 && Weighted(before) && Outcome(before, after, up, start, c)
    ensures c.Claimed? ==>
              && c.i < |before| && Counts(up, c.i)
              && (before[c.i].cap == 0 || before[c.i].active < before[c.i].cap)
              && forall j :: 0 <= j < |before| && Counts(up, j)
                             && (before[j].cap == 0 || before[j].active < before[j].cap)
                   ==> before[c.i].active as real / before[c.i].weight as real
                       <= before[j].active as real / before[j].weight as real
    ensures c.Shed? <==>
              forall j :: 0 <= j < |before| && Counts(up, j) ==> before[j].cap != 0 && before[j].active >= before[j].cap
    ensures c.Shed? ==> (c.reason == Saturated <==> exists j :: 0 <= j < |up| && up[j])
  {
    match c
    case Claimed(at, i) =>
      forall j | 0 <= j < |before| && Counts(up, j) && (before[j].cap == 0 || before[j].active < before[j].cap)
        ensures before[i].active as real / before[i].weight as real
             <= before[j].active as real / before[j].weight as real
      {
        LightestOfAll(before, up, !AnyUp(up), start, at, j);
      }
    case Shed(_) => ShedsOnlyWhenFull(before, up, !AnyUp(up), start);
  }

  /** A target without a gate entry is up, and while any is up a target gated down is not claimed. */
  lemma GateObeyed(before: seq<Peer>, after: seq<Peer>, gate: seq<bool>, start: nat, c: Choice, j: nat)
    requires 0 < |before| && Outcome(before, after, Reading(gate, |before|), start, c) && c.Claimed?
    requires j < |before| && (j >= |gate| || gate[j])
    ensures c.i < |before| && (c.i >= |gate| || gate[c.i])
  {
    assert Reading(gate, |before|)[j];
  }

  /** Of equally light targets the first in rotation order is claimed. */
  lemma FirstInRotation(before: seq<Peer>, after: seq<Peer>, up: seq<bool>, start: nat, c: Choice, j: nat)
    requires |up| == |before| > 0 && Weighted(before) && Outcome(before, after, up, start, c) && c.Claimed?
    requires j < c.at && Counts(up, Look(start, |before|, j))
    requires var q := before[Look(start, |before|, j)]; q.cap == 0 || q.active < q.cap
    ensures var q := before[Look(start, |before|, j)];
            before[c.i].active as real / before[c.i].weight as real < q.active as real / q.weight as real
  {
    LighterIsFraction(before[c.i], before[Look(start, |before|, j)]);
  }

  /** Every cursor: what the rotation finds is the lightest of all eligible peers, and finds one if there is one. */
  lemma LightestOfAll(peers: seq<Peer>, up: seq<bool>, ignoreGate: bool, start: nat, at: int, i: nat)
    requires |up| == |peers| && i < |peers|
    requires Leads(peers, up, ignoreGate, start, |peers|, at)
    requires Eligible(peers, up, ignoreGate, i)
    ensures at >= 0 && !Lighter(peers[i], peers[Look(start, |peers|, at)])
    ensures var best := peers[Look(start, |peers|, at)];
            Weighted(peers) ==>
              best.active as real / best.weight as real <= peers[i].active as real / peers[i].weight as real
  {
    var k := LooksCover(start, |peers|, i);
    if Weighted(peers) {
      LighterIsFraction(peers[i], peers[Look(start, |peers|, at)]);
    }
  }

  /** Nothing was chosen exactly when nobody is eligible. */
  lemma ShedsOnlyWhenFull(peers: seq<Peer>, up: seq<bool>, ignoreGate: bool, start: nat)
    requires |up| == |peers| > 0
    ensures Leads(peers, up, ignoreGate, start, |peers|, -1)
       <==> forall i :: 0 <= i < |peers| && (ignoreGate || up[i]) ==> !UnderCap(peers[i])
  {
    if Leads(peers, up, ignoreGate, start, |peers|, -1) {
      forall i | 0 <= i < |peers| && (ignoreGate || up[i])
        ensures !UnderCap(peers[i])
      {
        if UnderCap(peers[i]) {
          LightestOfAll(peers, up, ignoreGate, start, -1, i);
        }
      }
    }
  }
}
