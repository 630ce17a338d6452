/**
 The circuit breaker of one target with its satellites, when each admit and each record runs
 uninterrupted: the backed-off cooldown that follows every opening.
 */
module BreakerCooldown {
  import opened Arithmetic
  import opened BreakerProtocol
  import BreakerWord

  datatype Config = Config(failureThreshold: int, successThreshold: int, openTimeout: int, maxOpenTimeout: int,
                           probeTimeout: int, halfOpenMaxProbes: int)

  function Defaulted(x: int, otherwise: int): int {
    if x <= 0 then otherwise else x
  }

  predicate Usable(c: Config) {
    && 0 < c.failureThreshold && 0 < c.successThreshold && 0 < c.probeTimeout
    && 0 < c.openTimeout <= c.maxOpenTimeout < INT64
    && 0 < c.halfOpenMaxProbes <= BreakerWord.MAX_PROBES
  }

  /** init: defaults and clamps; whatever the caller wrote, the breaker runs on usable settings. */
  function Initialised(c: Config): (r: Config)
    requires c.openTimeout < INT64 && c.maxOpenTimeout < INT64
    ensures Usable(r)
    ensures Usable(c) ==> r == c
  {
    var open := Defaulted(c.openTimeout, 5 * SECOND);
    var max := Defaulted(c.maxOpenTimeout, 60 * SECOND);
    var probes := Defaulted(c.halfOpenMaxProbes, 1);
    Config(Defaulted(c.failureThreshold, 5), Defaulted(c.successThreshold, 2), open,
           if max < open then open else max, Defaulted(c.probeTimeout, 120 * SECOND),
           if probes > BreakerWord.MAX_PROBES then BreakerWord.MAX_PROBES else probes)
  }

  /** Left unset, the settings are the documented ones: five failures, two successes, one probe of at most
      two minutes, and cooldowns from five seconds to a minute. */
  lemma DocumentedDefaults(c: Config)
    requires c.openTimeout < INT64 && c.maxOpenTimeout < INT64
    ensures var r := Initialised(c);
            && (c.failureThreshold <= 0 ==> r.failureThreshold == 5)
            && (c.successThreshold <= 0 ==> r.successThreshold == 2)
            && (c.openTimeout <= 0 ==> r.openTimeout == 5_000_000_000)
            && (c.openTimeout <= 0 && c.maxOpenTimeout <= 0 ==> r.maxOpenTimeout == 60_000_000_000)
            && (c.probeTimeout <= 0 ==> r.probeTimeout == 120_000_000_000)
            && (c.halfOpenMaxProbes <= 0 ==> r.halfOpenMaxProbes == 1)
            && (c.failureThreshold > 0 ==> r.failureThreshold == c.failureThreshold)
            && (c.successThreshold > 0 ==> r.successThreshold == c.successThreshold)
            && (c.openTimeout > 0 ==> r.openTimeout == c.openTimeout)
            && (c.maxOpenTimeout >= r.openTimeout ==> r.maxOpenTimeout == c.maxOpenTimeout)
            && (c.probeTimeout > 0 ==> r.probeTimeout == c.probeTimeout)
  {
  }

  // ----- the doubling loop

  function Doubled(d: int, max: int, times: nat): int
    decreases times
  {
    if times == 0 || d >= max then d else Doubled(Wrap(2 * d), max, times - 1)
  }

  function Clipped(d: int, max: int): int {
    if d <= 0 || d > max then max else d
  }

  /** The cooldown of the g-th opening as the code computes it, overflow included. */
  function OpenTimeout(open: int, max: int, g: int): int {
    Clipped(Doubled(open, max, if g <= 1 then 0 else g - 1), max)
  }

  method ComputeOpenTimeout(open: int, max: int, g: int) returns (d: int)
    ensures d == OpenTimeout(open, max, g)
  {
    d := open;
    var i := 1;
    while i < g && d < max
      invariant 1 <= i && (i <= g || i == 1)
      invariant Doubled(open, max, if g <= 1 then 0 else g - 1) == Doubled(d, max, if g <= i then 0 else g - i)
    {
      d := Wrap(d * 2);
      i := i + 1;
    }
    if d <= 0 || d > max {
      d := max;
    }
  }

  function Pow2(n: nat): (p: nat)
    ensures p >= 1
  {
    if n == 0 then 1 else 2 * Pow2(n - 1)
  }

  function Min(a: int, b: int): int {
    if a <= b then a else b
  }

  /** What the documentation promises: doubled on each repeat trip, capped. */
  function Backoff(open: int, max: int, g: int): int {
    Min(max, open * Pow2(if g <= 1 then 0 else g - 1))
  }

  /** Once the doubling has hit exactly 2^63 it is negative, then zero for good: clipped to the cap. */
  lemma {:induction false} ZeroStays(max: int, times: nat)
    requires max > 0
    ensures Doubled(0, max, times) == 0
  {
    if times > 0 {
      ZeroStays(max, times - 1);
    }
  }

  lemma {:induction false} DoublingIsExact(d: int, max: int, times: nat)
    requires 0 < d < INT64 && 0 < max <= 0x4000_0000_0000_0001
    ensures Clipped(Doubled(d, max, times), max) == Min(max, d * Pow2(times))
    decreases times
  {
    if times > 0 {
      var p := Pow2(times - 1);
      Redoubled(d, p);
      if d >= max {
        Grows(d, 2 * p);
      } else if d < 0x4000_0000_0000_0000 {
        DoublingIsExact(2 * d, max, times - 1);
      } else {
        HitsTheTop(max, times);
        Grows(2 * d, p);
      }
    }
  }

  lemma HitsTheTop(max: int, times: nat)
    requires max == 0x4000_0000_0000_0001 && times > 0
    ensures Doubled(0x4000_0000_0000_0000, max, times) <= 0
  {
    assert Wrap(2 * 0x4000_0000_0000_0000) == -INT64 && Wrap(2 * -INT64) == 0;
    if times > 1 {
      assert Doubled(-INT64, max, times - 1) == Doubled(0, max, times - 2);
      ZeroStays(max, times - 2);
    }
  }

  lemma Redoubled(d: int, p: int)
    ensures d * (2 * p) == (2 * d) * p
  {
  }

  lemma Grows(a: int, b: int)
    requires a > 0 && b >= 1
    ensures a * b >= a
  {
  }

  ghost predicate ExactFor(max: int) {
    forall open, g :: 0 < open <= max ==> OpenTimeout(open, max, g) == Backoff(open, max, g)
  }

  /** The cap was 2^62+2 ns or more: a third opening can then cool down for 4 ns. */
  lemma OverflowCollapses(max: int)
    requires 0x4000_0000_0000_0001 < max < INT64
    ensures OpenTimeout(0x4000_0000_0000_0001, max, 3) == 4
    ensures Backoff(0x4000_0000_0000_0001, max, 3) == max
  {
    var d := 0x4000_0000_0000_0001;
    assert Doubled(d, max, 2) == Doubled(Wrap(2 * d), max, 1) == Doubled(Wrap(2 * Wrap(2 * d)), max, 0);
    assert Pow2(2) == 4;
  }

  /** The loop keeps its promise for every base and every trip count exactly when the cap is at most 2^62+1 ns. */
  lemma BackoffExactIff(max: int)
    requires 0 < max < INT64
    ensures ExactFor(max) <==> max <= 0x4000_0000_0000_0001
  {
    if max <= 0x4000_0000_0000_0001 {
      forall open, g | 0 < open <= max
        ensures OpenTimeout(open, max, g) == Backoff(open, max, g)
      {
        DoublingIsExact(open, max, if g <= 1 then 0 else g - 1);
      }
    } else {
      OverflowCollapses(max);
    }
  }

  /** Repeat trips never cool down for less. */
  lemma {:induction false} BackoffMonotone(open: int, max: int, g: int, h: int)
    requires 0 < open && g <= h
    ensures Backoff(open, max, g) <= Backoff(open, max, h)
    decreases h - g
  {
    if g < h {
      BackoffMonotone(open, max, g + 1, h);
      if g >= 1 {
        assert Pow2(g) == 2 * Pow2(g - 1);
        assert open * Pow2(g) == 2 * (open * Pow2(g - 1));
      }
    }
  }

  ghost predicate NeverShrinks(max: int) {
    forall open, g, h :: 0 < open <= max && g <= h ==> OpenTimeout(open, max, g) <= OpenTimeout(open, max, h)
  }

  /** The loop's own cooldowns never shrink from one trip to the next exactly when the cap is at most 2^62+1 ns. */
  lemma NeverShrinksIff(max: int)
    requires 0 < max < INT64
    ensures NeverShrinks(max) <==> max <= 0x4000_0000_0000_0001
  {
    if max <= 0x4000_0000_0000_0001 {
      BackoffExactIff(max);
      forall open, g, h | 0 < open <= max && g <= h
        ensures OpenTimeout(open, max, g) <= OpenTimeout(open, max, h)
      {
        BackoffMonotone(open, max, g, h);
      }
    } else {
      SecondCools(max);
      OverflowCollapses(max);
    }
  }

  /** For a larger cap the second opening, of a base of 2^62+1 ns, still cools down for the cap. */
  lemma SecondCools(max: int)
    requires 0x4000_0000_0000_0001 < max < INT64
    ensures OpenTimeout(0x4000_0000_0000_0001, max, 2) == max
  {
    var d := 0x4000_0000_0000_0001;
    assert Doubled(d, max, 1) == Doubled(Wrap(2 * d), max, 0);
  }

  // ----- uninterrupted operations

  datatype Snap = Snap(word: Word, openedUntil: int, halfOpenSince: int, generations: nat,
                       failures: nat, successes: nat)

  /** What a run shows: openings with their ordinal since the last heal, heals, admissions. */
  datatype Event = Opened(at: int, e: nat) | Healed | Admitted(now: int)

  datatype Verdict = Rejected | Granted(adm: Admission)

  function Delay(c: Config, e: int): int {
    OpenTimeout(c.openTimeout, c.maxOpenTimeout, e)
  }

  lemma DelayPositive(c: Config, e: int)
    requires Usable(c)
    ensures 0 < Delay(c, e) <= c.maxOpenTimeout
  {
  }

  const FRESH := Snap(Word(0, 0, Closed), 0, 0, 0, 0, 0)

  /** transition, as record and admit call it: only from (gen, from); the new generation starts with
      cleared counters. */
  function Moved(c: Config, b: Snap, gen: nat, from: Phase, next: Phase, clock: int): (Snap, seq<Event>)
    requires next != HalfOpen
  {
    if b.word.gen != gen || b.word.phase != from then (b, [])
    else if next == Open then
      (Snap(Word(gen + 1, 0, Open), clock + Delay(c, b.generations + 1), b.halfOpenSince, b.generations + 1, 0, 0),
       [Opened(clock, b.generations + 1)])
    else (Snap(Word(gen + 1, 0, next), 0, b.halfOpenSince, 0, 0, 0), [Healed])
  }

  function Released(b: Snap, gen: nat): Snap {
    if b.word.gen != gen || b.word.phase != HalfOpen || b.word.probes == 0 then b
    else b.(word := b.word.(probes := b.word.probes - 1))
  }

  /** admit, by its outcome. */
  function Admit(c: Config, b: Snap, now: int, clock: int): (Snap, Verdict, seq<Event>) {
    var w := b.word;
    match w.phase
    case Closed => (b, Granted(Routed), [Admitted(now)])
    case Open =>
      if b.openedUntil > now then (b, Rejected, [])
      else (b.(word := Word(w.gen + 1, 1, HalfOpen), halfOpenSince := now), Granted(Probe(w.gen + 1)), [Admitted(now)])
    case HalfOpen =>
      if w.probes < c.halfOpenMaxProbes then
        (b.(word := w.(probes := w.probes + 1)), Granted(Probe(w.gen)), [Admitted(now)])
      else if now - b.halfOpenSince > c.probeTimeout then
        var (b', es) := Moved(c, b, w.gen, HalfOpen, Open, clock);
        (b', Rejected, es)
      else (b, Rejected, [])
  }

  /** record, by its outcome; a stale probe still counts as a success, but moves nothing. */
  function Record(c: Config, b: Snap, adm: Admission, failed: bool, clock: int): (Snap, seq<Event>) {
    match adm
    case Probe(g) =>
      if failed then Moved(c, b, g, HalfOpen, Open, clock)
      else
        var b1 := b.(successes := b.successes + 1);
        if b1.successes >= c.successThreshold then Moved(c, b1, g, HalfOpen, Closed, clock)
        else (Released(b1, g), [])
    case Routed =>
      if failed then
        var b1 := b.(failures := b.failures + 1);
        if b1.failures >= c.failureThreshold && b.word.phase == Closed
        then Moved(c, b1, b.word.gen, Closed, Open, clock)
        else (b1, [])
      else (b.(failures := 0), [])
  }

  /** The breaker of one target, run by one thread at a time. */
  class Breaker {
    const cfg: Config
    var word: Word
    var openedUntil: int
    var halfOpenSince: int
    var generations: nat
    var failures: nat
    var successes: nat

    constructor (c: Config)
      requires c.openTimeout < INT64 && c.maxOpenTimeout < INT64
      ensures cfg == Initialised(c) && State() == FRESH
    {
      cfg := Initialised(c);
      word := Word(0, 0, Closed);
      openedUntil, halfOpenSince, generations, failures, successes := 0, 0, 0, 0, 0;
    }

    function State(): Snap
      reads this
    {
      Snap(word, openedUntil, halfOpenSince, generations, failures, successes)
    }

    /** With nobody else running, the first compare-and-swap wins. */
    method Transition(gen: nat, from: Phase, next: Phase, clock: int) returns (won: bool)
      requires next != HalfOpen
      modifies this
      ensures State() == Moved(cfg, old(State()), gen, from, next, clock).0
      ensures won <==> Moved(cfg, old(State()), gen, from, next, clock).1 != []
    {
      var until, e := 0, 0;
      if next == Open {
        e := generations + 1;
        var d := ComputeOpenTimeout(cfg.openTimeout, cfg.maxOpenTimeout, e);
        until := clock + d;
      }
      if word.gen != gen || word.phase != from {
        return false;
      }
      if next == Open {
        openedUntil := until;
      }
      word := Word(gen + 1, 0, next);
      failures := 0;
      successes := 0;
      if next == Open {
        generations := e;
      } else {
        generations := 0;
        openedUntil := 0;
      }
      return true;
    }

    method ReleaseProbe(gen: nat)
      modifies this
      ensures State() == Released(old(State()), gen)
    {
      if word.gen == gen && word.phase == HalfOpen && word.probes != 0 {
        word := word.(probes := word.probes - 1);
      }
    }

    /** The admit loop ends within two turns: a flip is followed by a claim, a reclaim by a rejection. */
    method AdmitNow(now: int, clock: int) returns (v: Verdict, turns: nat)
      requires Usable(cfg) && now <= clock
      modifies this
      ensures State() == Admit(cfg, old(State()), now, clock).0
      ensures v == Admit(cfg, old(State()), now, clock).1
      ensures 1 <= turns <= 2
    {
      turns := 0;
      ghost var b := State();
      while true
        invariant turns <= 1
        invariant turns == 0 ==> State() == b
        invariant turns == 1 ==>
                    || (&& b.word.phase == Open && b.openedUntil <= now
                        && State() == b.(word := Word(b.word.gen + 1, 0, HalfOpen), halfOpenSince := now))
                    || (&& b.word.phase == HalfOpen && b.word.probes >= cfg.halfOpenMaxProbes
                        && now - b.halfOpenSince > cfg.probeTimeout
                        && State() == Moved(cfg, b, b.word.gen, HalfOpen, Open, clock).0)
        decreases 2 - turns
      {
        turns := turns + 1;
        match word.phase
        case Closed =>
          return Granted(Routed), turns;
        case Open =>
          if openedUntil > now {
            return Rejected, turns;
          }
          halfOpenSince := now;
          word := Word(word.gen + 1, 0, HalfOpen);
        case HalfOpen =>
          if word.probes >= cfg.halfOpenMaxProbes {
            if now - halfOpenSince > cfg.probeTimeout {
              DelayPositive(cfg, generations + 1);
              var _ := Transition(word.gen, HalfOpen, Open, clock);
            } else {
              return Rejected, turns;
            }
          } else {
            word := word.(probes := word.probes + 1);
            return Granted(Probe(word.gen)), turns;
          }
      }
    }

    method RecordResult(adm: Admission, failed: bool, clock: int)
      modifies this
      ensures State() == Record(cfg, old(State()), adm, failed, clock).0
    {
      match adm
      case Probe(g) =>
        if failed {
          var _ := Transition(g, HalfOpen, Open, clock);
        } else {
          successes := successes + 1;
          if successes >= cfg.successThreshold {
            var _ := Transition(g, HalfOpen, Closed, clock);
          } else {
            ReleaseProbe(g);
          }
        }
      case Routed =>
        if failed {
          failures := failures + 1;
          if failures >= cfg.failureThreshold && word.phase == Closed {
            var _ := Transition(word.gen, Closed, Open, clock);
          }
        } else if failures != 0 {
          failures := 0;
        }
    }
  }

  // ----- whole runs

  /** One uninterrupted call; results may be recorded late, for any admission, and probes may panic. */
  datatype Op =
    | Ask(now: int, clock: int)
    | Report(adm: Admission, failed: bool, clock: int)
    | Unwind(gen: nat, clock: int)

  function Perform(c: Config, b: Snap, op: Op): (Snap, seq<Event>) {
    match op
    case Ask(now, clock) => var (b', _, es) := Admit(c, b, now, clock); (b', es)
    case Report(adm, failed, clock) => Record(c, b, adm, failed, clock)
    case Unwind(gen, _) => (Released(b, gen), [])
  }

  function Runs(c: Config, ops: seq<Op>): (Snap, seq<Event>) {
    if ops == [] then (FRESH, [])
    else
      var (b, h) := Runs(c, ops[..|ops| - 1]);
      var (b', es) := Perform(c, b, ops[|ops| - 1]);
      (b', h + es)
  }

  /** The clock readings of a run never step back. */
  ghost predicate Ordered(ops: seq<Op>) {
    && (forall i :: 0 <= i < |ops| ==> ops[i].Ask? ==> ops[i].now <= ops[i].clock)
    && (forall i, j :: 0 <= i < j < |ops| ==> ops[i].clock <= Began(ops[j]))
  }

  /** Openings since the last heal. */
  function Consecutive(h: seq<Event>): nat {
    if h == [] then 0
    else match h[|h| - 1]
         case Opened(_, _) => Consecutive(h[..|h| - 1]) + 1
         case Healed => 0
         case Admitted(_) => Consecutive(h[..|h| - 1])
  }

  ghost predicate Numbered(h: seq<Event>) {
    forall i :: 0 <= i < |h| && h[i].Opened? ==> h[i].e == Consecutive(h[..i]) + 1
  }

  ghost predicate Cooled(c: Config, h: seq<Event>) {
    forall i, j :: 0 <= i < j < |h| && h[i].Opened? && h[j].Admitted? ==> h[j].now >= h[i].at + Delay(c, h[i].e)
  }

  /** Every past cooldown is over, or is covered by the deadline of the current open state. */
  ghost predicate Pending(c: Config, b: Snap, h: seq<Event>, time: int) {
    forall i :: 0 <= i < |h| && h[i].Opened? ==>
      || h[i].at + Delay(c, h[i].e) <= time
      || (b.word.phase == Open && h[i].at + Delay(c, h[i].e) <= b.openedUntil)
  }

  ghost predicate RunInv(c: Config, b: Snap, h: seq<Event>, time: int) {
    Numbered(h) && Cooled(c, h) && Pending(c, b, h, time) && b.generations == Consecutive(h)
  }

  /** The first clock reading of a call. */
  function Began(op: Op): int {
    if op.Ask? then op.now else op.clock
  }

  /** What one call may show, and what it then leaves behind. */
  ghost predicate Shows(c: Config, b: Snap, b': Snap, es: seq<Event>, began: int) {
    if es == [] then
      b'.generations == b.generations && b'.word.phase == b.word.phase && b'.openedUntil == b.openedUntil
    else
      && |es| == 1
      && match es[0]
         case Opened(at, e) =>
           && b.word.phase != Open && b'.word.phase == Open
           && e == b.generations + 1 && b'.generations == e && b'.openedUntil == at + Delay(c, e)
         case Healed => b.word.phase != Open && b'.generations == 0
         case Admitted(now) =>
           && now == began && b'.generations == b.generations && b'.word.phase != Open
           && (b.word.phase == Open ==> b.openedUntil <= now)
  }

  lemma PerformShows(c: Config, b: Snap, op: Op)
    ensures Shows(c, b, Perform(c, b, op).0, Perform(c, b, op).1, Began(op))
  {
  }

  /** Appending the events of one call. */
  lemma Appended(c: Config, b: Snap, b': Snap, h: seq<Event>, es: seq<Event>, time: int, began: int, time': int)
    requires RunInv(c, b, h, time) && time <= began <= time'
    requires Shows(c, b, b', es, began)
    ensures RunInv(c, b', h + es, time')
  {
    if es == [] {
      assert h + es == h;
    } else {
      var h' := h + es;
      assert h'[..|h|] == h;
      forall i | 0 <= i < |h|
        ensures h'[..i] == h[..i]
      {
      }
    }
  }

  lemma {:induction false} RunKeepsCooldown(c: Config, ops: seq<Op>, time: int)
    requires Ordered(ops)
    requires ops != [] ==> time == ops[|ops| - 1].clock
    ensures RunInv(c, Runs(c, ops).0, Runs(c, ops).1, time)
  {
    if ops != [] {
      var front, op := ops[..|ops| - 1], ops[|ops| - 1];
      var before := if front == [] then Began(op) else front[|front| - 1].clock;
      RunKeepsCooldown(c, front, before);
      var (b, h) := Runs(c, front);
      PerformShows(c, b, op);
      Appended(c, b, Perform(c, b, op).0, h, Perform(c, b, op).1, before, Began(op), time);
    }
  }

  /**
   Nothing is admitted within the backed-off cooldown of an opening: every later admission of the run
   comes at least min(max, open*2^(e-1)) after the e-th consecutive opening since the last heal.
   */
  lemma NothingAdmittedWhileCooling(c: Config, ops: seq<Op>, i: nat, j: nat)
    requires Usable(c) && c.maxOpenTimeout <= 0x4000_0000_0000_0001
    requires Ordered(ops)
    requires i < j < |Runs(c, ops).1|
    requires Runs(c, ops).1[i].Opened? && Runs(c, ops).1[j].Admitted?
    ensures var h := Runs(c, ops).1;
            && h[i].e == Consecutive(h[..i]) + 1
            && h[j].now >= h[i].at + Backoff(c.openTimeout, c.maxOpenTimeout, h[i].e)
  {
    RunKeepsCooldown(c, ops, if ops == [] then 0 else ops[|ops| - 1].clock);
    BackoffExactIff(c.maxOpenTimeout);
  }
}
