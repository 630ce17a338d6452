/** What the balancers share: a target's effective weight and the reading of the health gate. */
module Targets {

  /** The configured weight; anything below one counts as one. */
  function EffectiveWeight(weight: int): (w: int)
    ensures w >= 1 && w >= weight && (w == 1 || w == weight)
  {
    if weight <= 0 then 1 else weight
  }

  /** The verdict on each of `n` targets; a missing or short gate reads as up. */
  function Reading(gate: seq<bool>, n: nat): (up: seq<bool>)
    ensures |up| == n && forall i :: 0 <= i < n ==> up[i] == (i >= |gate| || gate[i])
  {
    seq(n, i requires 0 <= i < n => i >= |gate| || gate[i])
  }
}
