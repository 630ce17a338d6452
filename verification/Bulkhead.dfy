/**
 The bulkhead of the least-connection balancer as an interleaving of its atomic steps: any number
 of requests scan, claim with compare-and-swap, fail, panic, stream and close their bodies, in any
 order.  A scan may hand over any target and any load it might have read.
 */
module Bulkhead {
  import opened Counting

  datatype Pc =
    | Scanning                                // pick: looking for a target
    | Seen(p: nat, seen: int)                 // claim: chosen with the load last read
    | Reread(p: nat)                          // claim: the compare-and-swap lost, load again
    | Held(p: nat)                            // the slot is taken, the round trip runs
    | Unwinding(p: nat, released: bool)       // returning without a body: the deferred dec is due
    | Streaming(p: nat, released: bool)       // the body owns the dec
    | Finished(p: nat)

  /** `taken` and `given` count, per request, the increments and decrements it made. */
  datatype State = State(active: seq<int>, threads: map<nat, Pc>, taken: map<nat, nat>, given: map<nat, nat>)

  datatype Action =
    | Choose(t: nat, p: nat, seen: int)   // the scan settles on a target
    | Claim(t: nat)                       // Add, or the cap test and compare-and-swap
    | Load(t: nat)                        // claim: re-read after a lost race
    | Fail(t: nat)                        // transport error or no body: dec, then return
    | Panic(t: nat)                       // the transport panics
    | Unwind(t: nat)                      // the deferred dec
    | Respond(t: nat)                     // headers arrived: the body takes over the dec
    | Close(t: nat)                       // the body is closed, maybe not for the first time
    | ClosePanics(t: nat)                 // the inner Close panics, and the dec after it is not reached

  function At(s: State, t: nat): Pc {
    if t in s.threads then s.threads[t] else Scanning
  }

  function Tally(m: map<nat, nat>, t: nat): nat {
    if t in m then m[t] else 0
  }

  function Go(s: State, t: nat, pc: Pc): State {
    s.(threads := s.threads[t := pc])
  }

  function Take(s: State, t: nat, p: nat): State
    requires p < |s.active|
  {
    s.(active := s.active[p := s.active[p] + 1], threads := s.threads[t := Held(p)],
       taken := s.taken[t := Tally(s.taken, t) + 1])
  }

  /** dec: sync.Once lets the decrement through the first time only. */
  function Dec(s: State, t: nat, p: nat, released: bool): State
    requires p < |s.active|
  {
    if released then s
    else s.(active := s.active[p := s.active[p] - 1], given := s.given[t := Tally(s.given, t) + 1])
  }

  function ClaimStep(s: State, t: nat, p: nat, seen: int, caps: seq<int>): State
    requires p < |s.active| == |caps|
  {
    if caps[p] == 0 then Take(s, t, p)
    else if seen >= caps[p] then Go(s, t, Scanning)
    else if s.active[p] == seen then Take(s, t, p)
    else Go(s, t, Reread(p))
  }

  function Apply(s: State, a: Action, caps: seq<int>): State
    requires Sized(s, caps)
  {
    match a
    case Choose(t, p, seen) => if At(s, t).Scanning? && p < |caps| then Go(s, t, Seen(p, seen)) else s
    case Claim(t) => (match At(s, t) case Seen(p, seen) => ClaimStep(s, t, p, seen, caps) case _ => s)
    case Load(t) => (match At(s, t) case Reread(p) => Go(s, t, Seen(p, s.active[p])) case _ => s)
    case Fail(t) => (match At(s, t) case Held(p) => Go(Dec(s, t, p, false), t, Unwinding(p, true)) case _ => s)
    case Panic(t) => (match At(s, t) case Held(p) => Go(s, t, Unwinding(p, false)) case _ => s)
    case Unwind(t) => (match At(s, t) case Unwinding(p, r) => Go(Dec(s, t, p, r), t, Finished(p)) case _ => s)
    case Respond(t) => (match At(s, t) case Held(p) => Go(s, t, Streaming(p, false)) case _ => s)
    case Close(t) => (match At(s, t) case Streaming(p, r) => Go(Dec(s, t, p, r), t, Streaming(p, true)) case _ => s)
    case ClosePanics(_) => s
  }

  predicate Placed(pc: Pc, n: nat) {
    !pc.Scanning? ==> pc.p < n
  }

  predicate Sized(s: State, caps: seq<int>) {
    |s.active| == |caps| && forall t :: t in s.threads ==> Placed(s.threads[t], |caps|)
  }

  lemma ApplySized(s: State, a: Action, caps: seq<int>)
    requires Sized(s, caps)
    ensures Sized(Apply(s, a, caps), caps)
  {
  }

  function Run(schedule: seq<Action>, caps: seq<int>): (s: State)
    ensures Sized(s, caps)
  {
    if schedule == [] then State(seq(|caps|, i => 0), map[], map[], map[])
    else
      var before := Run(schedule[..|schedule| - 1], caps);
      ApplySized(before, schedule[|schedule| - 1], caps);
      Apply(before, schedule[|schedule| - 1], caps)
  }

  // ----- the invariant

  /** The request holds an unreleased slot on target `p`. */
  predicate Holds(pc: Pc, p: nat) {
    match pc
    case Held(q) => q == p
    case Unwinding(q, released) => q == p && !released
    case Streaming(q, released) => q == p && !released
    case _ => false
  }

  function Unreleased(s: State, p: nat): set<nat> {
    set t | t in s.threads && Holds(s.threads[t], p)
  }

  /** A request's own books: one increment once claimed, one decrement once released. */
  predicate Balanced(s: State, t: nat) {
    match At(s, t)
    case Scanning => Tally(s.taken, t) == 0 && Tally(s.given, t) == 0
    case Seen(_, _) => Tally(s.taken, t) == 0 && Tally(s.given, t) == 0
    case Reread(_) => Tally(s.taken, t) == 0 && Tally(s.given, t) == 0
    case Held(_) => Tally(s.taken, t) == 1 && Tally(s.given, t) == 0
    case Unwinding(_, released) => Tally(s.taken, t) == 1 && Tally(s.given, t) == Bit(released)
    case Streaming(_, released) => Tally(s.taken, t) == 1 && Tally(s.given, t) == Bit(released)
    case Finished(_) => Tally(s.taken, t) == 1 && Tally(s.given, t) == 1
  }

  ghost predicate Counted(s: State) {
    forall p: nat :: p < |s.active| ==> s.active[p] == |Unreleased(s, p)|
  }

  ghost predicate Capped(s: State, caps: seq<int>)
    requires |s.active| == |caps|
  {
    forall p: nat :: p < |caps| && caps[p] > 0 ==> s.active[p] <= caps[p]
  }

  ghost predicate Inv(s: State, caps: seq<int>) {
    Sized(s, caps) && Counted(s) && Capped(s, caps) && forall t: nat :: Balanced(s, t)
  }

  /** One request moved: each target's holders change by that request alone. */
  lemma CountFollows(s: State, s': State, t: nat)
    requires Counted(s) && |s'.active| == |s.active|
    requires t in s'.threads && s'.threads == s.threads[t := s'.threads[t]]
    requires forall p: nat :: p < |s.active| ==>
               s'.active[p] + Bit(Holds(At(s, t), p)) == s.active[p] + Bit(Holds(At(s', t), p))
    ensures Counted(s')
  {
    forall p: nat | p < |s'.active|
      ensures s'.active[p] == |Unreleased(s', p)|
    {
      assert Unreleased(s', p) - {t} == Unreleased(s, p) - {t};
      OneMember(Unreleased(s, p), Unreleased(s', p), t);
    }
  }

  lemma ApplyCounts(s: State, a: Action, caps: seq<int>)
    requires Inv(s, caps)
    ensures Counted(Apply(s, a, caps))
  {
    var s' := Apply(s, a, caps);
    if s' != s && a.t in s'.threads {
      CountFollows(s, s', a.t);
    }
  }

  lemma ApplyBalances(s: State, a: Action, caps: seq<int>)
    requires Inv(s, caps)
    ensures forall t: nat :: Balanced(Apply(s, a, caps), t)
  {
    var s' := Apply(s, a, caps);
    forall t: nat
      ensures Balanced(s', t)
    {
      assert Balanced(s, t);
    }
  }

  lemma ApplyCaps(s: State, a: Action, caps: seq<int>)
    requires Inv(s, caps)
    ensures Capped(Apply(s, a, caps), caps)
  {
  }

  lemma {:induction false} RunKeeps(schedule: seq<Action>, caps: seq<int>)
    ensures Inv(Run(schedule, caps), caps)
  {
    if schedule == [] {
      var s := Run(schedule, caps);
      forall p: nat | p < |caps|
        ensures s.active[p] == |Unreleased(s, p)|
      {
        assert Unreleased(s, p) == {};
      }
    } else {
      var before, a := schedule[..|schedule| - 1], schedule[|schedule| - 1];
      RunKeeps(before, caps);
      ApplySized(Run(before, caps), a, caps);
      ApplyCounts(Run(before, caps), a, caps);
      ApplyBalances(Run(before, caps), a, caps);
      ApplyCaps(Run(before, caps), a, caps);
    }
  }

  // ----- main results

  /** The load of a target is the number of its unreleased requests, and a positive cap is never exceeded. */
  lemma CapIsHard(schedule: seq<Action>, caps: seq<int>, p: nat)
    requires p < |caps|
    ensures var s := Run(schedule, caps);
            && s.active[p] == |Unreleased(s, p)| >= 0
            && (caps[p] > 0 ==> s.active[p] <= caps[p])
  {
    RunKeeps(schedule, caps);
  }

  /** A request takes at most one slot and gives it back at most once: exactly once when its round trip
      failed or panicked, or a Close of its body returned. */
  lemma ReleasedExactlyOnce(schedule: seq<Action>, caps: seq<int>, t: nat)
    ensures var s := Run(schedule, caps);
            && Tally(s.given, t) <= Tally(s.taken, t) <= 1
            && (At(s, t).Finished? ==> Tally(s.given, t) == 1)
            && (At(s, t).Streaming? ==> Tally(s.given, t) == Bit(At(s, t).released))
  {
    RunKeeps(schedule, caps);
    assert Balanced(Run(schedule, caps), t);
  }

  /** A claim takes the slot when the target has no cap, or the load it saw is below the cap and still
      stands; it looks again when the load moved, and gives the target up when it saw it full. */
  lemma ClaimTakesIff(schedule: seq<Action>, caps: seq<int>, t: nat, s: State, s': State)
    requires s == Run(schedule, caps) && At(s, t).Seen? && s' == Apply(s, Claim(t), caps)
    ensures var pc := At(s, t);
            && pc.p < |caps| == |s.active|
            && (At(s', t) == Held(pc.p) <==> caps[pc.p] == 0 || (pc.seen < caps[pc.p] && s.active[pc.p] == pc.seen))
            && (At(s', t) == Reread(pc.p) <==> caps[pc.p] != 0 && pc.seen < caps[pc.p] && s.active[pc.p] != pc.seen)
            && (At(s', t) == Scanning <==> caps[pc.p] != 0 && pc.seen >= caps[pc.p])
            && s'.active == if At(s', t) == Held(pc.p) then s.active[pc.p := s.active[pc.p] + 1] else s.active
  {
    assert Placed(s.threads[t], |caps|);
  }

  /** A request that lost its race and is left alone then takes the slot exactly if the target has room. */
  lemma SecondTryTakesIff(schedule: seq<Action>, caps: seq<int>, t: nat, s: State, again: State, s': State)
    requires s == Run(schedule, caps) && At(s, t).Reread?
    requires again == Apply(s, Load(t), caps) && Sized(again, caps) && s' == Apply(again, Claim(t), caps)
    ensures var p := At(s, t).p;
            && p < |caps| == |s.active|
            && (At(s', t) == Held(p) <==> caps[p] == 0 || s.active[p] < caps[p])
            && (At(s', t) == Scanning <==> caps[p] != 0 && s.active[p] >= caps[p])
  {
    assert Placed(s.threads[t], |caps|);
  }

  /** Some Close of the request's streamed body returned. */
  ghost predicate CloseReturned(schedule: seq<Action>, caps: seq<int>, t: nat) {
    exists i :: 0 <= i < |schedule| && schedule[i] == Close(t) && At(Run(schedule[..i], caps), t).Streaming?
  }

  /** A body that streams goes on streaming; only a Close that returns releases it, and it starts unreleased. */
  lemma StreamingStep(s: State, a: Action, caps: seq<int>, t: nat)
    requires Sized(s, caps)
    ensures var pc, pc' := At(s, t), At(Apply(s, a, caps), t);
            && (pc.Streaming? ==> pc'.Streaming? && (pc'.released <==> pc.released || a == Close(t)))
            && (!pc.Streaming? && pc'.Streaming? ==> !pc'.released)
  {
  }

  lemma {:induction false} StreamingStays(schedule: seq<Action>, caps: seq<int>, t: nat, i: nat)
    requires i <= |schedule| && At(Run(schedule[..i], caps), t).Streaming?
    ensures At(Run(schedule, caps), t).Streaming?
  {
    if i == |schedule| {
      assert schedule[..i] == schedule;
    } else {
      var before, a := schedule[..|schedule| - 1], schedule[|schedule| - 1];
      assert before[..i] == schedule[..i] && before + [a] == schedule;
      StreamingStays(before, caps, t, i);
      RunNext(before, caps, a);
      StreamingStep(Run(before, caps), a, caps, t);
    }
  }

  lemma CloseReturnedNext(before: seq<Action>, a: Action, caps: seq<int>, t: nat)
    ensures CloseReturned(before + [a], caps, t)
       <==> CloseReturned(before, caps, t) || (a == Close(t) && At(Run(before, caps), t).Streaming?)
  {
    var schedule := before + [a];
    assert schedule[..|before|] == before && schedule[|before|] == a;
    assert forall i :: 0 <= i < |before| ==> schedule[i] == before[i] && schedule[..i] == before[..i];
  }

  /** A request that got its response gives its slot back if and only if some Close of its body
      returned: a Close that panics inside leaves the slot taken. */
  lemma SlotBackIffCloseReturned(schedule: seq<Action>, caps: seq<int>, t: nat)
    requires At(Run(schedule, caps), t).Streaming?
    ensures Tally(Run(schedule, caps).given, t) == 1 <==> CloseReturned(schedule, caps, t)
  {
    RunKeeps(schedule, caps);
    assert Balanced(Run(schedule, caps), t);
    ReleasedIffCloseReturned(schedule, caps, t, Run(schedule, caps));
  }

  lemma {:induction false} ReleasedIffCloseReturned(schedule: seq<Action>, caps: seq<int>, t: nat, s: State)
    requires s == Run(schedule, caps) && At(s, t).Streaming?
    ensures At(s, t).released <==> CloseReturned(schedule, caps, t)
    decreases |schedule|
  {
    if schedule != [] {
      var before, a := schedule[..|schedule| - 1], schedule[|schedule| - 1];
      var s0 := Run(before, caps);
      assert schedule == before + [a];
      RunNext(before, caps, a);
      StreamingStep(s0, a, caps, t);
      CloseReturnedNext(before, a, caps, t);
      if At(s0, t).Streaming? {
        ReleasedIffCloseReturned(before, caps, t, s0);
      } else if CloseReturned(before, caps, t) {
        var i :| 0 <= i < |before| && before[i] == Close(t) && At(Run(before[..i], caps), t).Streaming?;
        StreamingStays(before, caps, t, i);
      }
    }
  }

  lemma StreamSteps(caps: seq<int>)
    requires |caps| == 1 && caps[0] >= 0
    ensures var s0 := State([0], map[], map[], map[]);
            var s1 := State([0], map[0 := Seen(0, 0)], map[], map[]);
            var s2 := State([1], map[0 := Held(0)], map[0 := 1], map[]);
            && Apply(s0, Choose(0, 0, 0), caps) == s1
            && Apply(s1, Claim(0), caps) == s2
            && Apply(s2, Respond(0), caps) == s2.(threads := map[0 := Streaming(0, false)])
  {
    assert [0][0 := 1] == [1];
  }

  lemma Streams(caps: seq<int>)
    requires |caps| == 1 && caps[0] >= 0
    ensures Run([Choose(0, 0, 0)] + [Claim(0)] + [Respond(0)], caps)
         == State([1], map[0 := Streaming(0, false)], map[0 := 1], map[])
  {
    StreamSteps(caps);
    assert Run([], caps) == State([0], map[], map[], map[]) && [] + [Choose(0, 0, 0)] == [Choose(0, 0, 0)];
    RunNext([], caps, Choose(0, 0, 0));
    RunNext([Choose(0, 0, 0)], caps, Claim(0));
    RunNext([Choose(0, 0, 0)] + [Claim(0)], caps, Respond(0));
  }

  /** The run that shows it: one request, whose body's only Close panics inside, keeps its slot. */
  lemma LeakRun(caps: seq<int>, s: State)
    requires |caps| == 1 && caps[0] >= 0
    requires s == Run([Choose(0, 0, 0)] + [Claim(0)] + [Respond(0)] + [ClosePanics(0)], caps)
    ensures s.active == [1] && Tally(s.given, 0) == 0
  {
    Streams(caps);
    RunNext([Choose(0, 0, 0)] + [Claim(0)] + [Respond(0)], caps, ClosePanics(0));
  }

  /** Closing a streamed body, once or many times, gives back exactly the one slot. */
  lemma CloseReleases(schedule: seq<Action>, caps: seq<int>, t: nat, s: State, once: State, twice: State)
    requires s == Run(schedule, caps) && At(s, t).Streaming?
    requires once == Run(schedule + [Close(t)], caps) && twice == Run(schedule + [Close(t)] + [Close(t)], caps)
    ensures At(s, t).p < |caps|
    ensures once.active == s.active[At(s, t).p := s.active[At(s, t).p] - Bit(!At(s, t).released)]
    ensures twice.active == once.active
  {
    RunNext(schedule, caps, Close(t));
    RunNext(schedule + [Close(t)], caps, Close(t));
    CloseTwice(s, caps, t);
  }

  lemma CloseTwice(s: State, caps: seq<int>, t: nat)
    requires Sized(s, caps) && At(s, t).Streaming?
    ensures var s', p := Apply(s, Close(t), caps), At(s, t).p;
            && p < |caps|
            && s'.active == s.active[p := s.active[p] - Bit(!At(s, t).released)]
            && Sized(s', caps) && Apply(s', Close(t), caps).active == s'.active
  {
    assert Placed(s.threads[t], |caps|);
    ApplySized(s, Close(t), caps);
  }

  lemma RunNext(schedule: seq<Action>, caps: seq<int>, a: Action)
    ensures Run(schedule + [a], caps) == Apply(Run(schedule, caps), a, caps)
  {
    assert (schedule + [a])[..|schedule|] == schedule;
  }
}
