/**
 When a target opens, heals and admits, told from the history of its calls: the breaker's counters and
 deadlines are what the documentation says they are, and one of them is not.
 */
module BreakerHistory {
  import opened Arithmetic
  import opened BreakerProtocol
  import opened BreakerCooldown

  function After(c: Config, ops: seq<Op>): Snap {
    Runs(c, ops).0
  }

  /** What one more call shows. */
  function Shown(c: Config, ops: seq<Op>, op: Op): seq<Event> {
    Perform(c, After(c, ops), op).1
  }

  predicate Opens(es: seq<Event>) {
    es != [] && es[0].Opened?
  }

  predicate Heals(es: seq<Event>) {
    es != [] && es[0].Healed?
  }

  predicate Admits(es: seq<Event>) {
    es != [] && es[0].Admitted?
  }

  lemma RunsNext(c: Config, ops: seq<Op>, op: Op)
    ensures After(c, ops + [op]) == Perform(c, After(c, ops), op).0
    ensures Runs(c, ops + [op]).1 == Runs(c, ops).1 + Shown(c, ops, op)
  {
    assert (ops + [op])[..|ops|] == ops;
  }

  // ----- the history

  /** Routed failures recorded since the last routed success, opening or heal. */
  function FailuresInARow(c: Config, ops: seq<Op>): nat {
    if ops == [] then 0
    else
      var front, op := ops[..|ops| - 1], ops[|ops| - 1];
      if Opens(Shown(c, front, op)) || Heals(Shown(c, front, op)) then 0
      else match op
           case Report(Routed, failed, _) => if failed then FailuresInARow(c, front) + 1 else 0
           case _ => FailuresInARow(c, front)
  }

  /** Probe successes recorded since the last opening or heal, of whatever generation. */
  function SuccessesSince(c: Config, ops: seq<Op>): nat {
    if ops == [] then 0
    else
      var front, op := ops[..|ops| - 1], ops[|ops| - 1];
      if Opens(Shown(c, front, op)) || Heals(Shown(c, front, op)) then 0
      else match op
           case Report(Probe(_), false, _) => SuccessesSince(c, front) + 1
           case _ => SuccessesSince(c, front)
  }

  /** When the last admission that ended an open state was asked for. */
  function DwellStart(c: Config, ops: seq<Op>): int {
    if ops == [] then 0
    else
      var front, op := ops[..|ops| - 1], ops[|ops| - 1];
      if Admits(Shown(c, front, op)) && After(c, front).word.phase == Open then Shown(c, front, op)[0].now
      else DwellStart(c, front)
  }

  /** What one call does to the satellites, by what it shows. */
  lemma PerformSatellites(c: Config, b: Snap, op: Op, b': Snap, es: seq<Event>)
    requires b' == Perform(c, b, op).0 && es == Perform(c, b, op).1
    ensures b'.failures == if Opens(es) || Heals(es) then 0
                           else if op.Report? && op.adm.Routed? then (if op.failed then b.failures + 1 else 0)
                           else b.failures
    ensures b'.successes == if Opens(es) || Heals(es) then 0
                            else if op.Report? && op.adm.Probe? && !op.failed then b.successes + 1
                            else b.successes
    ensures b'.halfOpenSince == if Admits(es) && b.word.phase == Open then es[0].now else b.halfOpenSince
  {
  }

  /** The satellites hold exactly that. */
  lemma {:induction false} SatellitesAreHistory(c: Config, ops: seq<Op>)
    ensures After(c, ops).failures == FailuresInARow(c, ops)
    ensures After(c, ops).successes == SuccessesSince(c, ops)
    ensures After(c, ops).halfOpenSince == DwellStart(c, ops)
  {
    if ops != [] {
      var front, op := ops[..|ops| - 1], ops[|ops| - 1];
      SatellitesAreHistory(c, front);
      LastCall(c, ops, front, op);
      PerformSatellites(c, After(c, front), op, After(c, ops), Shown(c, front, op));
    }
  }

  lemma LastCall(c: Config, ops: seq<Op>, front: seq<Op>, op: Op)
    requires ops == front + [op]
    ensures After(c, ops) == Perform(c, After(c, front), op).0
  {
    RunsNext(c, front, op);
  }

  /** An open target's last event is its opening, and its deadline is that opening's cooldown. */
  lemma {:induction false} DeadlineIsHistory(c: Config, ops: seq<Op>)
    requires After(c, ops).word.phase == Open
    ensures var h := Runs(c, ops).1;
            && h != [] && h[|h| - 1].Opened?
            && After(c, ops).openedUntil == h[|h| - 1].at + Delay(c, h[|h| - 1].e)
  {
    if ops != [] {
      var front, op := ops[..|ops| - 1], ops[|ops| - 1];
      if After(c, front).word.phase == Open {
        DeadlineIsHistory(c, front);
      }
    }
  }

  /** A closed target has no deadline. */
  lemma {:induction false} ClosedHasNoDeadline(c: Config, ops: seq<Op>)
    requires After(c, ops).word.phase == Closed
    ensures After(c, ops).openedUntil == 0
  {
    if ops != [] {
      var front, op := ops[..|ops| - 1], ops[|ops| - 1];
      if After(c, front).word.phase == Closed {
        ClosedHasNoDeadline(c, front);
      }
    }
  }

  // ----- when

  /** A closed target opens at the FailureThreshold-th failure in a row; a half-open one when a probe of
      its generation fails, or when it is full and its dwell has outlasted the probe timeout. */
  lemma OpensIff(c: Config, ops: seq<Op>, op: Op)
    ensures var w := After(c, ops).word;
            Opens(Shown(c, ops, op))
            <==>
            match op
            case Report(Routed, failed, _) =>
              failed && w.phase == Closed && FailuresInARow(c, ops) + 1 >= c.failureThreshold
            case Report(Probe(g), failed, _) => failed && w.phase == HalfOpen && w.gen == g
            case Ask(now, _) =>
              w.phase == HalfOpen && w.probes >= c.halfOpenMaxProbes && now - DwellStart(c, ops) > c.probeTimeout
            case Unwind(_, _) => false
  {
    SatellitesAreHistory(c, ops);
  }

  /** A target heals exactly at a success of a probe of the current half-open generation that is the
      SuccessThreshold-th probe success since the opening. */
  lemma HealsIff(c: Config, ops: seq<Op>, op: Op)
    ensures var w := After(c, ops).word;
            Heals(Shown(c, ops, op))
            <==>
            && op.Report? && op.adm.Probe? && !op.failed
            && w.phase == HalfOpen && w.gen == op.adm.gen
            && SuccessesSince(c, ops) + 1 >= c.successThreshold
  {
    SatellitesAreHistory(c, ops);
  }

  /** A request is admitted exactly to a closed target, to an open one whose last opening has cooled
      down, or to a half-open one with a free slot. */
  lemma AdmitsIff(c: Config, ops: seq<Op>, op: Op)
    ensures var w, h := After(c, ops).word, Runs(c, ops).1;
            Admits(Shown(c, ops, op))
            <==>
            && op.Ask?
            && match w.phase
               case Closed => true
               case Open => h != [] && h[|h| - 1].Opened? && op.now >= h[|h| - 1].at + Delay(c, h[|h| - 1].e)
               case HalfOpen => w.probes < c.halfOpenMaxProbes
  {
    if After(c, ops).word.phase == Open {
      DeadlineIsHistory(c, ops);
    }
  }

  /** `n` routed failures in a row. */
  function Failing(n: nat, clock: int): seq<Op> {
    seq(n, _ => Report(Routed, true, clock))
  }

  lemma FailingNext(n: nat, clock: int)
    requires n > 0
    ensures Failing(n, clock) == Failing(n - 1, clock) + [Report(Routed, true, clock)]
  {
  }

  /** A success clears a closed target's failures: it takes the full threshold again to open it. */
  lemma {:induction false} OnlyConsecutiveFailuresTrip(c: Config, ops: seq<Op>, n: nat, clock: int)
    requires Usable(c) && After(c, ops).word.phase == Closed && n <= c.failureThreshold
    ensures var b := After(c, ops + [Report(Routed, false, clock)] + Failing(n, clock));
            if n < c.failureThreshold then b.word.phase == Closed && b.failures == n else b.word.phase == Open
  {
    var start := ops + [Report(Routed, false, clock)];
    RunsNext(c, ops, Report(Routed, false, clock));
    if n == 0 {
      assert start + Failing(0, clock) == start;
    } else {
      OnlyConsecutiveFailuresTrip(c, ops, n - 1, clock);
      FailingNext(n, clock);
      assert start + Failing(n, clock) == start + Failing(n - 1, clock) + [Report(Routed, true, clock)];
      RunsNext(c, start + Failing(n - 1, clock), Report(Routed, true, clock));
    }
  }

  // ----- whose successes heal

  /** Admissions whose result is still to come. */
  function Outstanding(c: Config, ops: seq<Op>): multiset<Admission> {
    if ops == [] then multiset{}
    else
      var front, op := ops[..|ops| - 1], ops[|ops| - 1];
      match op
      case Ask(now, clock) =>
        (match Admit(c, After(c, front), now, clock).1
         case Rejected => Outstanding(c, front)
         case Granted(adm) => Outstanding(c, front) + multiset{adm})
      case Report(adm, _, _) => Outstanding(c, front) - multiset{adm}
      case Unwind(gen, _) => Outstanding(c, front) - multiset{Probe(gen)}
  }

  /** Every result recorded answers an admission that had none yet. */
  predicate Answered(c: Config, ops: seq<Op>) {
    ops == [] ||
    var front, op := ops[..|ops| - 1], ops[|ops| - 1];
    && Answered(c, front)
    && match op
       case Ask(_, _) => true
       case Report(adm, _, _) => adm in Outstanding(c, front)
       case Unwind(gen, _) => Probe(gen) in Outstanding(c, front)
  }

  /** Successes recorded by probes of generation `g`. */
  function Own(ops: seq<Op>, g: nat): nat {
    if ops == [] then 0
    else
      var op := ops[|ops| - 1];
      Own(ops[..|ops| - 1], g) + (if op.Report? && op.adm == Probe(g) && !op.failed then 1 else 0)
  }

  /** A heal takes as many successes of the generation it ends as the threshold asks for. */
  ghost predicate HealsByOwn(threshold: int) {
    forall c: Config, ops: seq<Op>, op: Op ::
      Usable(c) && c.successThreshold == threshold && Ordered(ops + [op]) && Answered(c, ops + [op])
      && Heals(Shown(c, ops, op)) && op.Report? && op.adm.Probe?
      ==> Own(ops + [op], op.adm.gen) >= threshold
  }

  lemma OwnNext(ops: seq<Op>, op: Op, g: nat)
    ensures Own(ops + [op], g) == Own(ops, g) + (if op.Report? && op.adm == Probe(g) && !op.failed then 1 else 0)
  {
    assert (ops + [op])[..|ops|] == ops;
  }

  /** One trip, one probe reclaimed for overstaying, its late success, and the next probe. */
  function Prelude(): seq<Op> {
    [Ask(0, 0)] + [Report(Routed, true, 0)] + [Ask(1, 1)] + [Ask(3, 3)] + [Report(Probe(2), false, 3)] + [Ask(4, 4)]
  }

  function Hasty(threshold: int): Config {
    Config(1, threshold, 1, 1, 1, 1)
  }

  /** Where a run stands: its state, what is outstanding, and that everything recorded was. */
  ghost predicate Stands(c: Config, ops: seq<Op>, b: Snap, open: multiset<Admission>) {
    After(c, ops) == b && Outstanding(c, ops) == open && Answered(c, ops)
  }

  lemma Next(c: Config, ops: seq<Op>, op: Op, b: Snap, open: multiset<Admission>)
    requires Stands(c, ops, b, open)
    requires op.Report? ==> op.adm in open
    requires op.Unwind? ==> Probe(op.gen) in open
    ensures Stands(c, ops + [op], Perform(c, b, op).0,
                   match op
                   case Ask(now, clock) =>
                     (match Admit(c, b, now, clock).1
                      case Rejected => open
                      case Granted(adm) => open + multiset{adm})
                   case Report(adm, _, _) => open - multiset{adm}
                   case Unwind(gen, _) => open - multiset{Probe(gen)})
  {
    RunsNext(c, ops, op);
    assert (ops + [op])[..|ops|] == ops;
  }

  lemma HastyDelay(threshold: int, e: int)
    ensures Delay(Hasty(threshold), e) == 1
  {
  }

  lemma PreludeStands(threshold: int)
    requires threshold >= 2
    ensures Stands(Hasty(threshold), Prelude(), Halfway(1), multiset{Probe(4)})
  {
    var c := Hasty(threshold);
    HastyDelay(threshold, 1);
    HastyDelay(threshold, 2);
    var ops := [Ask(0, 0)] + [Report(Routed, true, 0)];
    Tripped(threshold);
    Next(c, ops, Ask(1, 1), Snap(Word(1, 0, Open), 1, 0, 1, 0, 0), multiset{});
    Next(c, ops + [Ask(1, 1)], Ask(3, 3), Snap(Word(2, 1, HalfOpen), 1, 1, 1, 0, 0), multiset{Probe(2)});
    ops := ops + [Ask(1, 1)] + [Ask(3, 3)];
    Next(c, ops, Report(Probe(2), false, 3), Snap(Word(3, 0, Open), 4, 1, 2, 0, 0), multiset{Probe(2)});
    ops := ops + [Report(Probe(2), false, 3)];
    Next(c, ops, Ask(4, 4), Snap(Word(3, 0, Open), 4, 1, 2, 0, 1), multiset{});
  }

  lemma Tripped(threshold: int)
    requires threshold >= 2
    ensures Stands(Hasty(threshold), [Ask(0, 0)] + [Report(Routed, true, 0)],
                   Snap(Word(1, 0, Open), 1, 0, 1, 0, 0), multiset{})
  {
    var c := Hasty(threshold);
    HastyDelay(threshold, 1);
    assert [] + [Ask(0, 0)] == [Ask(0, 0)];
    Next(c, [], Ask(0, 0), FRESH, multiset{});
    Next(c, [Ask(0, 0)], Report(Routed, true, 0), FRESH, multiset{Routed});
  }

  /** The half-open state of generation 4 after `n` successes, one probe out. */
  function Halfway(n: nat): Snap {
    Snap(Word(4, 1, HalfOpen), 4, 4, 2, 0, n)
  }

  lemma ProbeSucceeds(threshold: int, n: nat)
    ensures var (b, es) := Perform(Hasty(threshold), Halfway(n), Report(Probe(4), false, 4));
            if n + 1 >= threshold then Heals(es)
            else b == Snap(Word(4, 0, HalfOpen), 4, 4, 2, 0, n + 1) && es == []
  {
  }

  lemma ProbeAgain(threshold: int, n: nat)
    ensures var b := Snap(Word(4, 0, HalfOpen), 4, 4, 2, 0, n);
            && Perform(Hasty(threshold), b, Ask(4, 4)).0 == Halfway(n)
            && Admit(Hasty(threshold), b, 4, 4).1 == Granted(Probe(4))
  {
  }

  lemma OneProbeMore(threshold: int, ops: seq<Op>, n: nat)
    requires n + 1 < threshold && Stands(Hasty(threshold), ops, Halfway(n), multiset{Probe(4)})
    ensures Stands(Hasty(threshold), ops + [Report(Probe(4), false, 4)] + [Ask(4, 4)],
                   Halfway(n + 1), multiset{Probe(4)})
  {
    var c, done := Hasty(threshold), ops + [Report(Probe(4), false, 4)];
    ProbeSucceeds(threshold, n);
    Next(c, ops, Report(Probe(4), false, 4), Halfway(n), multiset{Probe(4)});
    assert multiset{Probe(4)} - multiset{Probe(4)} == multiset{};
    ProbeAgain(threshold, n + 1);
    Next(c, done, Ask(4, 4), Snap(Word(4, 0, HalfOpen), 4, 4, 2, 0, n + 1), multiset{});
    assert multiset{} + multiset{Probe(4)} == multiset{Probe(4)};
  }

  lemma OneOwnMore(ops: seq<Op>)
    ensures Own(ops + [Report(Probe(4), false, 4)] + [Ask(4, 4)], 4) == Own(ops, 4) + 1
  {
    OwnNext(ops, Report(Probe(4), false, 4), 4);
    OwnNext(ops + [Report(Probe(4), false, 4)], Ask(4, 4), 4);
  }

  ghost predicate OrderedUpToFour(ops: seq<Op>) {
    Ordered(ops) && forall i :: 0 <= i < |ops| ==> ops[i].clock <= 4
  }

  lemma OrderedNext(ops: seq<Op>, op: Op)
    requires OrderedUpToFour(ops) && Began(op) == 4 && op.clock == 4
    ensures OrderedUpToFour(ops + [op])
  {
  }

  lemma TwoMoreOrdered(ops: seq<Op>)
    requires OrderedUpToFour(ops)
    ensures OrderedUpToFour(ops + [Report(Probe(4), false, 4)] + [Ask(4, 4)])
  {
    OrderedNext(ops, Report(Probe(4), false, 4));
    OrderedNext(ops + [Report(Probe(4), false, 4)], Ask(4, 4));
  }

  lemma PreludeOrdered()
    ensures OrderedUpToFour(Prelude())
  {
    var p := Prelude();
    assert p[0] == Ask(0, 0) && p[1] == Report(Routed, true, 0) && p[2] == Ask(1, 1);
    assert p[3] == Ask(3, 3) && p[4] == Report(Probe(2), false, 3) && p[5] == Ask(4, 4);
  }

  lemma PreludeOwn()
    ensures Own(Prelude(), 4) == 0
  {
    var p := Prelude();
    assert p[..5][..4] == p[..4] && p[..4][..3] == p[..3] && p[..3][..2] == p[..2] && p[..2][..1] == p[..1];
    assert Own(p[..1], 4) == 0 && Own(p[..2], 4) == 0 && Own(p[..3], 4) == 0 && Own(p[..4], 4) == 0;
    assert Own(p[..5], 4) == 0;
  }

  lemma SomePrelude(threshold: int) returns (start: seq<Op>)
    requires threshold >= 2
    ensures Stands(Hasty(threshold), start, Halfway(1), multiset{Probe(4)})
    ensures Own(start, 4) == 0 && OrderedUpToFour(start)
  {
    start := Prelude();
    PreludeStands(threshold);
    PreludeOwn();
    PreludeOrdered();
  }

  /** A run with `k` successes of generation 4 and one stale success counted, the next probe out. */
  lemma {:induction false} SomeProbing(k: nat, threshold: int) returns (ops: seq<Op>)
    requires k + 2 <= threshold
    ensures Stands(Hasty(threshold), ops, Halfway(k + 1), multiset{Probe(4)})
    ensures Own(ops, 4) == k && OrderedUpToFour(ops)
  {
    if k == 0 {
      ops := SomePrelude(threshold);
    } else {
      var front := SomeProbing(k - 1, threshold);
      ops := front + [Report(Probe(4), false, 4)] + [Ask(4, 4)];
      OneProbeMore(threshold, front, k);
      OneOwnMore(front);
      TwoMoreOrdered(front);
    }
  }

  lemma LastProbeHeals(ops: seq<Op>, op: Op, threshold: nat)
    requires threshold >= 2 && op == Report(Probe(4), false, 4)
    requires Stands(Hasty(threshold), ops, Halfway(threshold - 1), multiset{Probe(4)})
    ensures Answered(Hasty(threshold), ops + [op]) && Heals(Shown(Hasty(threshold), ops, op))
  {
    assert (ops + [op])[..|ops|] == ops;
    ProbeSucceeds(threshold, threshold - 1);
  }

  /** A late success of a reclaimed probe counts for the next half-open state: with a threshold of at
      least 2 a target heals one success of its own short. */
  lemma StaleSuccessHeals(threshold: nat) returns (c: Config, ops: seq<Op>, op: Op)
    requires threshold >= 2
    ensures Usable(c) && c.successThreshold == threshold
    ensures Ordered(ops + [op]) && Answered(c, ops + [op]) && Heals(Shown(c, ops, op))
    ensures op == Report(Probe(4), false, 4) && Own(ops + [op], 4) == threshold - 1
  {
    ops := SomeProbing(threshold - 2, threshold);
    c, op := Hasty(threshold), Report(Probe(4), false, 4);
    LastProbeHeals(ops, op, threshold);
    OwnNext(ops, op, 4);
    OrderedNext(ops, op);
  }

  /** Every heal takes SuccessThreshold successes of its own generation if and only if the threshold is 1. */
  lemma HealsByOwnIff(threshold: nat)
    requires threshold >= 1
    ensures HealsByOwn(threshold) <==> threshold == 1
  {
    if threshold == 1 {
      forall c: Config, ops: seq<Op>, op: Op | Heals(Shown(c, ops, op)) && op.Report? && op.adm.Probe?
        ensures Own(ops + [op], op.adm.gen) >= 1
      {
        HealsIff(c, ops, op);
        OwnNext(ops, op, op.adm.gen);
      }
    } else {
      var c, ops, op := StaleSuccessHeals(threshold);
    }
  }
}
