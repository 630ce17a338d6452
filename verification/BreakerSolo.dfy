/**
 The two views of the breaker meet: an uninterrupted admit, record or unwind is a schedule of the
 interleaved protocol in which one thread takes all the steps.
 */
module BreakerSolo {
  import opened BreakerProtocol
  import opened BreakerCooldown

  /** The protocol after more steps. */
  function Onward(s: BreakerProtocol.State, schedule: seq<Action>, max: nat): BreakerProtocol.State
    decreases |schedule|
  {
    if schedule == [] then s else Onward(Apply(s, schedule[0], max), schedule[1..], max)
  }

  predicate Solo(schedule: seq<Action>, t: nat) {
    forall i :: 0 <= i < |schedule| ==> schedule[i].t == t
  }

  lemma One(s: BreakerProtocol.State, a: Action, max: nat)
    ensures Onward(s, [a], max) == Apply(s, a, max)
  {
    assert [a][1..] == [];
  }

  lemma Two(s: BreakerProtocol.State, a: Action, b: Action, max: nat)
    ensures Onward(s, [a, b], max) == Apply(Apply(s, a, max), b, max)
  {
    assert [a, b][1..] == [b];
    One(Apply(s, a, max), b, max);
  }

  lemma {:induction false} Joined(s: BreakerProtocol.State, front: seq<Action>, back: seq<Action>, max: nat)
    ensures Onward(s, front + back, max) == Onward(Onward(s, front, max), back, max)
    decreases |front|
  {
    if front == [] {
      assert front + back == back;
    } else {
      assert (front + back)[1..] == front[1..] + back;
      Joined(Apply(s, front[0], max), front[1..], back, max);
    }
  }

  /** So whatever holds after every run of the protocol holds after a run that goes on alone. */
  lemma {:induction false} OnwardIsRun(past: seq<Action>, schedule: seq<Action>, max: nat)
    ensures Run(past + schedule, max) == Onward(Run(past, max), schedule, max)
    decreases |schedule|
  {
    if schedule == [] {
      assert past + schedule == past;
    } else {
      var past' := past + [schedule[0]];
      assert past + schedule == past' + schedule[1..] && past'[..|past|] == past;
      OnwardIsRun(past', schedule[1..], max);
    }
  }

  /** A transition that finds its word moves it in three steps; one that does not returns at once. */
  lemma TransitionAlone(c: Config, b: Snap, s: BreakerProtocol.State, t: nat,
                        gen: nat, from: Phase, next: Phase, caller: Caller, clock: int)
    returns (schedule: seq<Action>)
    requires s.word == b.word && At(s, t) == MoveLoad(gen, from, next, caller)
    requires next != HalfOpen && c.halfOpenMaxProbes >= 0
    ensures Solo(schedule, t)
    ensures var s' := Onward(s, schedule, c.halfOpenMaxProbes);
            s'.word == Moved(c, b, gen, from, next, clock).0.word && At(s', t) == Resume(caller)
  {
    var max := c.halfOpenMaxProbes;
    if s.word.gen != gen || s.word.phase != from {
      schedule := [Load(t, false)];
      One(s, Load(t, false), max);
    } else {
      schedule := [Load(t, false), Cas(t)] + [HookReturns(t)];
      Two(s, Load(t, false), Cas(t), max);
      Joined(s, [Load(t, false), Cas(t)], [HookReturns(t)], max);
      One(Onward(s, [Load(t, false), Cas(t)], max), HookReturns(t), max);
    }
  }

  /** How the protocol shows an outcome of admit. */
  function Settled(v: Verdict): Pc {
    match v
    case Rejected => Idle
    case Granted(adm) => Serving(adm)
  }

  /** The cooldown is over: flip the word, then claim the first slot. */
  lemma FlipAlone(s: BreakerProtocol.State, t: nat, max: nat) returns (schedule: seq<Action>)
    requires At(s, t) == FlipCas(s.word) && s.word.phase == Open && max >= 1
    ensures Solo(schedule, t)
    ensures var s', gen := Onward(s, schedule, max), s.word.gen + 1;
            s'.word == Word(gen, 1, HalfOpen) && At(s', t) == Serving(Probe(gen))
  {
    var flip, claim := [Cas(t), HookReturns(t)], [Load(t, false), Cas(t)];
    schedule := flip + claim;
    Joined(s, flip, claim, max);
    Two(s, Cas(t), HookReturns(t), max);
    Two(Onward(s, flip, max), Load(t, false), Cas(t), max);
  }

  lemma AdmitAlone(c: Config, b: Snap, s: BreakerProtocol.State, t: nat, now: int, clock: int)
    returns (schedule: seq<Action>)
    requires Usable(c) && s.word == b.word && At(s, t).Idle? && now <= clock
    ensures Solo(schedule, t)
    ensures var s' := Onward(s, schedule, c.halfOpenMaxProbes);
            && s'.word == Admit(c, b, now, clock).0.word
            && At(s', t) == Settled(Admit(c, b, now, clock).1)
  {
    var max, w := c.halfOpenMaxProbes, b.word;
    var flag := if w.phase == Open then b.openedUntil > now
                else w.phase == HalfOpen && now - b.halfOpenSince > c.probeTimeout;
    var start := [Arrive(t), Load(t, flag)];
    var s1 := Onward(s, start, max);
    Two(s, Arrive(t), Load(t, flag), max);
    schedule := start;
    if w.phase == HalfOpen && w.probes < max {
      schedule := start + [Cas(t)];
      Joined(s, start, [Cas(t)], max);
      One(s1, Cas(t), max);
    } else if w.phase == Open && !flag {
      var flip := FlipAlone(s1, t, max);
      schedule := start + flip;
      Joined(s, start, flip, max);
    } else if w.phase == HalfOpen && flag {
      var move := TransitionAlone(c, b, s1, t, w.gen, HalfOpen, Open, ByReclaim, clock);
      schedule := start + move + [Load(t, true)];
      Joined(s, start + move, [Load(t, true)], max);
      Joined(s, start, move, max);
      One(Onward(s1, move, max), Load(t, true), max);
    }
  }

  lemma ReleaseAlone(c: Config, b: Snap, s: BreakerProtocol.State, t: nat, gen: nat) returns (schedule: seq<Action>)
    requires s.word == b.word && At(s, t) == ReleaseLoad(gen) && c.halfOpenMaxProbes >= 0
    ensures Solo(schedule, t)
    ensures var s' := Onward(s, schedule, c.halfOpenMaxProbes);
            s'.word == Released(b, gen).word && At(s', t).Idle?
  {
    schedule := [Load(t, false)] + [Cas(t)];
    Two(s, Load(t, false), Cas(t), c.halfOpenMaxProbes);
    assert schedule == [Load(t, false), Cas(t)];
  }

  lemma RecordAlone(c: Config, b: Snap, s: BreakerProtocol.State, t: nat, adm: Admission, failed: bool, clock: int)
    returns (schedule: seq<Action>)
    requires Usable(c) && s.word == b.word && At(s, t) == Serving(adm)
    ensures Solo(schedule, t)
    ensures var s' := Onward(s, schedule, c.halfOpenMaxProbes);
            s'.word == Record(c, b, adm, failed, clock).0.word && At(s', t).Idle?
  {
    var max := c.halfOpenMaxProbes;
    var at := if adm.Probe? then b.successes + 1 >= c.successThreshold else b.failures + 1 >= c.failureThreshold;
    var start := [Answer(t, failed, at)];
    One(s, Answer(t, failed, at), max);
    var s1 := Onward(s, start, max);
    schedule := start;
    if adm.Probe? {
      var rest;
      if failed {
        rest := TransitionAlone(c, b, s1, t, adm.gen, HalfOpen, Open, ByProbe(adm.gen), clock);
      } else if at {
        var b1 := b.(successes := b.successes + 1);
        rest := TransitionAlone(c, b1, s1, t, adm.gen, HalfOpen, Closed, ByProbe(adm.gen), clock);
      } else {
        rest := ReleaseAlone(c, b.(successes := b.successes + 1), s1, t, adm.gen);
      }
      schedule := start + rest;
      Joined(s, start, rest, max);
    } else if failed && at {
      var look := [Load(t, false)];
      One(s1, Load(t, false), max);
      schedule := start + look;
      Joined(s, start, look, max);
      if b.word.phase == Closed {
        var b1, s2 := b.(failures := b.failures + 1), Onward(s1, look, max);
        var rest := TransitionAlone(c, b1, s2, t, b.word.gen, Closed, Open, ByTrip, clock);
        schedule := start + look + rest;
        Joined(s, start + look, rest, max);
      }
    }
  }

  /** A probe whose transport panicked gives its slot back by the same steps. */
  lemma UnwindAlone(c: Config, b: Snap, s: BreakerProtocol.State, t: nat, gen: nat) returns (schedule: seq<Action>)
    requires s.word == b.word && At(s, t) == Serving(Probe(gen)) && c.halfOpenMaxProbes >= 0
    ensures Solo(schedule, t)
    ensures var s' := Onward(s, schedule, c.halfOpenMaxProbes);
            s'.word == Released(b, gen).word && At(s', t).Idle?
  {
    var start := [Panic(t)];
    One(s, Panic(t), c.halfOpenMaxProbes);
    var rest := ReleaseAlone(c, b, Onward(s, start, c.halfOpenMaxProbes), t, gen);
    schedule := start + rest;
    Joined(s, start, rest, c.halfOpenMaxProbes);
  }
}
