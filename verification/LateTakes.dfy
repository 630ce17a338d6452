/**
 The sliding window when readings enter the lock late.  Take reads the clock before it takes the lock,
 so a reading of an earlier window can follow one of a later window although the clock never steps
 back.  What each such step back can cost, for every run whatever its order, and what it does cost.
 */
module LateTakes {
  import opened Arithmetic
  import opened SlidingWindow
  import opened WindowWorstCase

  // ----- what every run keeps of a key

  ghost predicate Sane(storage: map<string, Item>, key: string, mark: int, max: int) {
    key in storage ==>
      && storage[key].window <= mark
      && 0 <= storage[key].curr <= max
      && 0 <= storage[key].prev <= max
  }

  /** Where the key stands after an event, and whether the event was a step back. */
  function Moved(e: Event, key: string, size: int, mark: int): int
    requires size > 0
  {
    match e
    case Take(k, now) => if k == key then now / size else mark
    case Sweep(at) => if at / size > mark then at / size else mark
  }

  predicate Back(e: Event, key: string, size: int, mark: int)
    requires size > 0
  {
    e.Take? && e.key == key && e.now / size < mark
  }

  lemma ApplySane(s: State, e: Event, size: int, max: int, key: string, mark: int)
    requires size > 0 && max >= 1 && Sane(s.storage, key, mark, max)
    ensures Sane(Apply(s, e, size, max).storage, key, Moved(e, key, size, mark), max)
  {
    if e.Take? && e.key == key {
      var t := Current(s.storage, key, e.now, size);
      if Fits(max, t.prev, t.curr, e.now, size) {
        FitsBounds(max, t.prev, t.curr, e.now, size);
      }
    }
  }

  // ----- one aligned window

  /** The admissions in window `w`, against a budget of `base` for the visits that are over. */
  ghost predicate Paid(s: State, key: string, w: int, size: int, max: int, mark: int, base: int)
    requires size > 0
  {
    Count(s.log, key, w, size)
    <= if key in s.storage && s.storage[key].window == w then base + s.storage[key].curr
       else if w < mark then base + max
       else base
  }

  /** A visit to a window admits at most the maximum, and only a step back makes another visit. */
  lemma ApplyPaid(s: State, e: Event, key: string, w: int, size: int, max: int, mark: int, base: int)
    requires size > 0 && max >= 1 && Sane(s.storage, key, mark, max) && Paid(s, key, w, size, max, mark, base)
    ensures Paid(Apply(s, e, size, max), key, w, size, max, Moved(e, key, size, mark),
                 if Back(e, key, size, mark) then base + max else base)
  {
    if e.Take? {
      OtherKey(s.log, Admit(e.key, e.now), key, w, size);
    }
  }

  lemma {:induction false} RunPaid(events: seq<Event>, key: string, w: int, size: int, max: int, base: int)
    requires size > 0 && max >= 1 && base == StepsBack(events, key, size) * max
    ensures var s, mark := Run(events, size, max), Mark(events, key, size);
            Sane(s.storage, key, mark, max) && Paid(s, key, w, size, max, mark, base)
  {
    if events != [] {
      var front, e := events[..|events| - 1], events[|events| - 1];
      var back := StepsBack(front, key, size);
      RunPaid(front, key, w, size, max, back * max);
      OneMore(back, max);
      ApplySane(Run(front, size, max), e, size, max, key, Mark(front, key, size));
      ApplyPaid(Run(front, size, max), e, key, w, size, max, Mark(front, key, size), back * max);
    }
  }

  /** For every run, in whatever order readings enter the lock: each step back costs an aligned window
      at most one more budget. */
  lemma BudgetPerStepBack(events: seq<Event>, key: string, w: int, size: int, max: int)
    requires size > 0 && max >= 1
    ensures Count(Run(events, size, max).log, key, w, size) <= (1 + StepsBack(events, key, size)) * max
  {
    var back := StepsBack(events, key, size);
    RunPaid(events, key, w, size, max, back * max);
    OneMore(back, max);
  }

  // ----- any interval of one window's length

  /** The admissions in [a, a + size), against a budget of `base` for the stretches that are over. */
  ghost predicate Spent(s: State, key: string, a: int, size: int, mark: int, base: int, worst: int)
    requires size > 0
  {
    var total, w := CountIn(s.log, key, a, a + size), a / size;
    if key !in s.storage then total <= if mark <= w + 1 then base else base + worst
    else
      var t := s.storage[key];
      if t.window < w then total <= base
      else if t.window == w then total <= base + t.curr
      else if t.window == w + 1 then total <= base + t.prev + t.curr && total <= base + worst
      else total <= base + worst
  }

  lemma SpentAtMost(s: State, key: string, a: int, size: int, max: int, mark: int, base: int, worst: int)
    requires size > 0 && 0 <= max <= worst && Sane(s.storage, key, mark, max)
    requires Spent(s, key, a, size, mark, base, worst)
    ensures CountIn(s.log, key, a, a + size) <= base + worst
  {
  }

  lemma OneMoreIn(log: seq<Admit>, e: Admit, key: string, a: int, b: int)
    ensures CountIn(log + [e], key, a, b)
         == CountIn(log, key, a, b) + (if e.key == key && a <= e.time < b then 1 else 0)
  {
    assert (log + [e])[..|log|] == log;
  }

  /** Moving the key to the window of a Take, before it decides. */
  lemma RollSpent(s: State, key: string, now: int, a: int, size: int, max: int, mark: int, base: int, worst: int)
    requires size > 0 && 0 <= max <= worst && Sane(s.storage, key, mark, max)
    requires Spent(s, key, a, size, mark, base, worst)
    ensures var t := Current(s.storage, key, now, size);
            && 0 <= t.curr <= max && 0 <= t.prev <= max && t.window == now / size
            && Spent(s.(storage := s.storage[key := t]), key, a, size, now / size,
                     if now / size < mark then base + worst else base, worst)
  {
  }

  /** An admission inside the interval, in its second window, keeps the stretch within the worst case. */
  lemma StretchBound(prev: int, curr: int, now: int, a: int, size: int, max: int)
    requires size > 0 && 0 <= prev <= max && curr >= 0 && Fits(max, prev, curr, now, size)
    requires a <= now < a + size && now / size == a / size + 1
    ensures prev + curr + 1 <= Worst(size, max)
  {
    var f := Elapsed(now, size);
    Blend(prev, curr, f, max, prev + curr + 1);
    OffsetBound(a, now, size);
    InNanos(prev + curr + 1, prev, max, now % size, size, f);
    AtMostWorst(prev + curr + 1, prev, max, now % size, size);
  }

  lemma TakeSpent(s: State, key: string, now: int, a: int, size: int, max: int, mark: int, base: int, worst: int)
    requires size > 0 && max >= 1 && Sane(s.storage, key, mark, max) && worst == Worst(size, max)
    requires Spent(s, key, a, size, mark, base, worst)
    ensures Spent(Apply(s, Take(key, now), size, max), key, a, size, now / size,
                  if now / size < mark then base + worst else base, worst)
  {
    WorstAtLeastMax(size, max);
    RollSpent(s, key, now, a, size, max, mark, base, worst);
    var t := Current(s.storage, key, now, size);
    OneMoreIn(s.log, Admit(key, now), key, a, a + size);
    if Fits(max, t.prev, t.curr, now, size) && a <= now < a + size {
      OneOrTwo(a, now, size);
      if now / size == a / size + 1 {
        StretchBound(t.prev, t.curr, now, a, size, max);
      }
    }
  }

  lemma ApplySpent(s: State, e: Event, key: string, a: int, size: int, max: int, mark: int, base: int, worst: int)
    requires size > 0 && max >= 1 && Sane(s.storage, key, mark, max) && worst == Worst(size, max)
    requires Spent(s, key, a, size, mark, base, worst)
    ensures Spent(Apply(s, e, size, max), key, a, size, Moved(e, key, size, mark),
                  if Back(e, key, size, mark) then base + worst else base, worst)
  {
    WorstAtLeastMax(size, max);
    if e.Take? {
      if e.key == key {
        TakeSpent(s, key, e.now, a, size, max, mark, base, worst);
      } else {
        OneMoreIn(s.log, Admit(e.key, e.now), key, a, a + size);
      }
    }
  }

  lemma {:induction false} RunSpent(events: seq<Event>, key: string, a: int, size: int, max: int, base: int, worst: int)
    requires size > 0 && max >= 1 && worst == Worst(size, max) && base == StepsBack(events, key, size) * worst
    ensures var s, mark := Run(events, size, max), Mark(events, key, size);
            Sane(s.storage, key, mark, max) && Spent(s, key, a, size, mark, base, worst)
  {
    if events != [] {
      var front, e := events[..|events| - 1], events[|events| - 1];
      var back := StepsBack(front, key, size);
      RunSpent(front, key, a, size, max, back * worst, worst);
      OneMore(back, worst);
      ApplySane(Run(front, size, max), e, size, max, key, Mark(front, key, size));
      ApplySpent(Run(front, size, max), e, key, a, size, max, Mark(front, key, size), back * worst, worst);
    }
  }

  /** For every run: each step back costs an interval of one window's length at most one more worst case. */
  lemma WorstPerStepBack(events: seq<Event>, key: string, a: int, size: int, max: int)
    requires size > 0 && max >= 1
    ensures CountIn(Run(events, size, max).log, key, a, a + size)
         <= (1 + StepsBack(events, key, size)) * Worst(size, max)
  {
    var back, worst := StepsBack(events, key, size), Worst(size, max);
    WorstAtLeastMax(size, max);
    RunSpent(events, key, a, size, max, back * worst, worst);
    SpentAtMost(Run(events, size, max), key, a, size, max, Mark(events, key, size), back * worst, worst);
    OneMore(back, worst);
  }

  // ----- what a step back does cost

  lemma {:induction false} BurstMark(k: nat, now: int, size: int)
    requires size > 0 && k > 0
    ensures Mark(Burst(k, now), KEY, size) == now / size
  {
    BurstNext(k, now);
    InOrderNext(Burst(k - 1, now), Take(KEY, now), KEY, size);
  }

  /** Takes of one window after another Take of it do not step back. */
  lemma {:induction false} BurstSteps(first: seq<Event>, k: nat, now: int, size: int)
    requires size > 0 && Mark(first, KEY, size) <= now / size
    ensures StepsBack(first + Burst(k, now), KEY, size) == StepsBack(first, KEY, size)
    ensures Mark(first + Burst(k, now), KEY, size) <= now / size
  {
    if k == 0 {
      assert first + Burst(0, now) == first;
    } else {
      BurstSteps(first, k - 1, now, size);
      BurstNext(k, now);
      StepNext(first + Burst(k - 1, now), Take(KEY, now), size);
      assert first + Burst(k, now) == first + Burst(k - 1, now) + [Take(KEY, now)];
    }
  }

  lemma StepNext(events: seq<Event>, e: Event, size: int)
    requires size > 0
    ensures StepsBack(events + [e], KEY, size)
         == StepsBack(events, KEY, size) + (if Back(e, KEY, size, Mark(events, KEY, size)) then 1 else 0)
    ensures Mark(events + [e], KEY, size) == Moved(e, KEY, size, Mark(events, KEY, size))
  {
    assert (events + [e])[..|events|] == events;
  }

  /** A burst at the end of window 1, one Take that read the end of window 0, and another burst. */
  function Relapse(size: int, max: nat, j: nat): seq<Event> {
    Burst(max, 2 * size - 1) + [Take(KEY, size - 1)] + Burst(j, 2 * size - 1)
  }

  lemma Ends(size: int)
    requires size >= 1
    ensures (size - 1) / size == 0 && (2 * size - 1) / size == 1 && (2 * size - 1) % size == size - 1
  {
    assert 2 * size - 1 == 1 * size + (size - 1);
  }

  lemma RelapseOnce(size: int, max: nat, j: nat)
    requires size >= 1 && max >= 1
    ensures StepsBack(Relapse(size, max, j), KEY, size) == 1
  {
    var first, late := Burst(max, 2 * size - 1), Take(KEY, size - 1);
    Ends(size);
    FirstStays(max, 2 * size - 1, size);
    StepNext(first, late, size);
    BurstSteps(first + [late], j, 2 * size - 1, size);
  }

  lemma FirstStays(k: nat, now: int, size: int)
    requires size > 0 && k > 0 && now >= 0
    ensures StepsBack(Burst(k, now), KEY, size) == 0 && Mark(Burst(k, now), KEY, size) == now / size
  {
    assert [] + Burst(k, now) == Burst(k, now);
    DivGrows(0, now, size);
    BurstSteps([], k, now, size);
    BurstMark(k, now, size);
  }

  lemma RelapseLog(size: int, max: nat, j: nat)
    requires size >= 1 && max >= 1 && j * size <= max * (size - 1)
    ensures Run(Relapse(size, max, j), size, max).log == Admits(max, 2 * size - 1) + Admits(j, 2 * size - 1)
  {
    var first, late, log := Burst(max, 2 * size - 1), Take(KEY, size - 1), Admits(max, 2 * size - 1);
    Ends(size);
    FirstBurst(max, 2 * size - 1, size, max);
    RunNext(first, late, size, max);
    assert Apply(State(map[KEY := Item(1, max, 0)], log), late, size, max) == State(map[KEY := Held(0, max)], log);
    SecondBurst(j, 2 * size - 1, size, max, first + [late], log);
  }

  lemma {:induction false} CountWindow(log: seq<Admit>, w: int, size: int)
    requires size > 0 && forall i :: 0 <= i < |log| ==> log[i].key == KEY && log[i].time / size == w
    ensures Count(log, KEY, w, size) == |log|
  {
    if log != [] {
      CountWindow(log[..|log| - 1], w, size);
    }
  }

  /** One step back lets window 1 admit Max + floor(Max*(Size-1)/Size), which is 2*Max - 1 for Size of at
      least Max: all but one of the budgets that two visits may spend. */
  lemma OneStepBackCosts(size: int, max: nat) returns (events: seq<Event>, log: seq<Admit>)
    requires size >= 1 && max >= 1
    ensures StepsBack(events, KEY, size) == 1 && log == Run(events, size, max).log
    ensures Count(log, KEY, 1, size) == max + max * (size - 1) / size
    ensures size >= max ==> Count(log, KEY, 1, size) == 2 * max - 1
  {
    var room := max * (size - 1);
    DivBound(0, size, room);
    var j := room / size;
    DivBound(j, size, room);
    events := Relapse(size, max, j);
    log := Admits(max, 2 * size - 1) + Admits(j, 2 * size - 1);
    RelapseOnce(size, max, j);
    RelapseLog(size, max, j);
    Ends(size);
    CountWindow(log, 1, size);
    NearlyAll(size, max);
  }

  lemma NearlyAll(size: int, max: nat)
    requires size >= 1 && max >= 1
    ensures size >= max ==> max * (size - 1) / size == max - 1
  {
    var room := max * (size - 1);
    DivBound(max - 1, size, room);
    DivBound(max, size, room);
    assert room == max * size - max && (max - 1) * size == max * size - size;
  }

  // ----- exactly when the cap holds

  /** Readings enter the lock at most `lag` nanoseconds behind one another. */
  ghost predicate Lagging(events: seq<Event>, lag: nat) {
    && (forall i :: 0 <= i < |events| ==> Stamp(events[i]) >= 0)
    && (forall i, j :: 0 <= i < j < |events| && events[j].Take? ==> Stamp(events[i]) <= events[j].now + lag)
  }

  ghost predicate AlwaysCapped(size: int, max: int, lag: nat)
    requires size > 0
  {
    forall events, key, w :: Lagging(events, lag) ==> Count(Run(events, size, max).log, key, w, size) <= max
  }

  /** Two late readings of the last nanosecond of window 0, among Takes at the first of window 1. */
  function Flicker(size: int, max: nat): seq<Event> {
    Burst(max, size) + [Take(KEY, size - 1)] + [Take(KEY, size)] + [Take(KEY, size - 1)] + [Take(KEY, size)]
  }

  lemma Edge(size: int)
    requires size >= 1
    ensures (size - 1) / size == 0 && size / size == 1 && size % size == 0
  {
  }

  /** The first late reading empties the current count, the second loses what replaced it. */
  lemma FlickerState(size: int, max: nat, log: seq<Admit>)
    requires size >= 1 && max >= 1
    ensures Apply(State(map[KEY := Item(1, max, 0)], log), Take(KEY, size - 1), size, max)
         == State(map[KEY := Item(0, max, 0)], log)
    ensures Apply(State(map[KEY := Item(0, max, 0)], log), Take(KEY, size), size, max)
         == State(map[KEY := Item(1, 0, max)], log)
  {
    Edge(size);
  }

  lemma FlickerAdmits(size: int, max: nat, log: seq<Admit>, s: State)
    requires size >= 1 && max >= 1
    requires s == Apply(State(map[KEY := Item(1, 0, max)], log), Take(KEY, size - 1), size, max)
    ensures s.log == log || s.log == log + [Admit(KEY, size - 1)]
    ensures Apply(s, Take(KEY, size), size, max).log == s.log + [Admit(KEY, size)]
  {
    Edge(size);
    var c := if Fits(max, max, 0, size - 1, size) then 1 else 0;
    assert s.storage == map[KEY := Item(0, c, max)];
    if c == 1 {
      FitsBelow(max, size - 1, size);
    }
    assert Current(s.storage, KEY, size, size) == Item(1, 0, c);
    assert Fits(max, c, 0, size, size);
  }

  /** A full previous window leaves room only for a maximum of at least 2. */
  lemma FitsBelow(max: int, now: int, size: int)
    requires size >= 1 && max >= 1 && Fits(max, max, 0, now, size)
    ensures max >= 2
  {
    assert 1.0 - Elapsed(now, size) > 0.0;
  }

  lemma FlickerRun(size: int, max: nat) returns (log: seq<Admit>)
    requires size >= 1 && max >= 1
    ensures log == Run(Flicker(size, max), size, max).log && Count(log, KEY, 1, size) == max + 1
  {
    var burst, now, late := Burst(max, size), Take(KEY, size), Take(KEY, size - 1);
    var taken := Admits(max, size);
    Edge(size);
    FirstBurst(max, size, size, max);
    FlickerState(size, max, taken);
    RunNext(burst, late, size, max);
    RunNext(burst + [late], now, size, max);
    RunNext(burst + [late] + [now], late, size, max);
    RunNext(burst + [late] + [now] + [late], now, size, max);
    var s := Run(burst + [late] + [now] + [late], size, max);
    FlickerAdmits(size, max, taken, s);
    log := s.log + [Admit(KEY, size)];
    CountWindow(taken, 1, size);
    OtherKey(taken, Admit(KEY, size - 1), KEY, 1, size);
    OtherKey(s.log, Admit(KEY, size), KEY, 1, size);
  }

  lemma FlickerLags(size: int, max: nat, lag: nat)
    requires size >= 1 && lag >= 1
    ensures Lagging(Flicker(size, max), lag)
  {
    var events := Flicker(size, max);
    assert forall i :: 0 <= i < |events| ==> events[i].Take? && size - 1 <= events[i].now <= size;
  }

  /** Every run whose readings lag by at most `lag` keeps an aligned window within the maximum if and
      only if none lags at all. */
  lemma CappedIffNoLag(size: int, max: nat, lag: nat)
    requires size >= 1 && max >= 1
    ensures AlwaysCapped(size, max, lag) <==> lag == 0
  {
    if lag == 0 {
      forall events, key, w | Lagging(events, lag)
        ensures Count(Run(events, size, max).log, key, w, size) <= max
      {
        OrderedIsInOrder(events, key, size);
        RunsAreLimited(events, key, size, max, w, 0);
      }
    } else {
      var log := FlickerRun(size, max);
      FlickerLags(size, max, lag);
    }
  }
}
