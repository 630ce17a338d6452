/**
 The wait that the sliding-window limiter advises: exact to one nanosecond, however many window
 boundaries it crosses.
 */
module RetryAdvice {
  import opened Arithmetic
  import opened SlidingWindow

  /** The fraction of a window at which `level` left over from `count` becomes small enough. */
  function TargetFraction(level: int, count: int): real
    requires count != 0
  {
    1.0 - level as real / count as real
  }

  /** Durations are whole nanoseconds: the conversion drops the fraction of a positive real. */
  function AfterAt(max: int, prev: int, curr: int, size: int, now: int): int
    requires size > 0 && prev >= 0 && curr >= 0
  {
    if Fits(max, prev, curr, now, size) then 0
    else
      var curFrac := Elapsed(now, size);
      var toBoundary := (now / size + 1) * size - now;
      if prev > 0 && curr + 1 <= max && curFrac < TargetFraction(max - curr - 1, prev) < 1.0 then
        ((TargetFraction(max - curr - 1, prev) - curFrac) * size as real).Floor + 1
      else if curr + 1 <= max then toBoundary
      else if max <= 0 then toBoundary
      else toBoundary + (TargetFraction(max - 1, curr) * size as real).Floor + 1
  }

  /** After reads the item as if rolled, and changes nothing. */
  function After(storage: map<string, Item>, key: string, now: int, size: int, max: int): int
    requires size > 0
    requires key in storage ==> storage[key].prev >= 0 && storage[key].curr >= 0
  {
    if key !in storage then 0
    else
      var t := Rolled(storage[key], now / size);
      AfterAt(max, t.prev, t.curr, size, now)
  }

  /** Would a Take at `u` be admitted, if nobody takes the key in between? */
  predicate AdmittedAt(max: int, prev: int, curr: int, size: int, now: int, u: int)
    requires size > 0
  {
    var t := Rolled(Item(now / size, curr, prev), u / size);
    Fits(max, t.prev, t.curr, u, size)
  }

  // ----- real arithmetic

  lemma Rescale(x: real, y: real, k: real)
    requires k > 0.0
    ensures x * k <= y * k <==> x <= y
  {
  }

  /** With a positive count, fitting is a matter of enough of the window being gone. */
  lemma FitsFromFraction(count: int, level: int, frac: real, target: real)
    requires count > 0 && target == TargetFraction(level, count)
    ensures count as real * (1.0 - frac) <= level as real <==> frac >= target
  {
    var q := level as real / count as real;
    assert q * count as real == level as real;
    Rescale(1.0 - frac, q, count as real);
  }

  /** A fraction of the window against a target fraction, in nanoseconds. */
  lemma FractionInNanos(x: int, size: int, target: real)
    requires size > 0
    ensures x as real / size as real >= target <==> x as real >= target * size as real
  {
    var f := x as real / size as real;
    assert f * size as real == x as real;
    Rescale(target, f, size as real);
  }

  lemma FloorBetween(x: real)
    ensures x.Floor as real <= x < x.Floor as real + 1.0
  {
  }

  // ----- clock arithmetic

  /** Still inside the window of `now`. */
  lemma SameWindow(now: int, size: int, d: int)
    requires size > 0 && d >= 0 && now % size + d < size
    ensures (now + d) / size == now / size && (now + d) % size == now % size + d
  {
    var q, r := now / size, now % size + d;
    assert now + d == size * q + r;
    DivMod(q, r, size, now + d);
    assert size * ((now + d) / size - q) == 0;
    ZeroProduct(size, (now + d) / size - q);
  }

  lemma ZeroProduct(n: int, d: int)
    requires n > 0 && n * d == 0
    ensures d == 0
  {
    if d >= 1 {
      AtLeastOnce(n, d);
    } else if d <= -1 {
      AtLeastOnce(n, -d);
    }
  }

  function Boundary(now: int, size: int): int
    requires size > 0
  {
    (now / size + 1) * size
  }

  lemma AtBoundary(now: int, size: int)
    requires size > 0
    ensures Boundary(now, size) - now == size - now % size
    ensures Boundary(now, size) / size == now / size + 1 && Boundary(now, size) % size == 0
  {
    var q := now / size;
    assert now == size * q + now % size;
    assert (q + 1) * size == size * q + size;
    DivMod(q + 1, 0, size, (q + 1) * size);
    assert size * (Boundary(now, size) / size - (q + 1)) == 0;
    ZeroProduct(size, Boundary(now, size) / size - (q + 1));
  }

  // ----- when a Take is admitted

  /** Within the current window. */
  lemma AdmittedThisWindow(max: int, prev: int, curr: int, size: int, now: int, d: int)
    requires size > 0 && d >= 0 && now % size + d < size
    ensures AdmittedAt(max, prev, curr, size, now, now + d)
       <==> prev as real * (1.0 - (now % size + d) as real / size as real) <= (max - curr - 1) as real
  {
    SameWindow(now, size, d);
  }

  /** Within the next window, `d` nanoseconds after the boundary: the current count has become the previous one. */
  lemma AdmittedNextWindow(max: int, prev: int, curr: int, size: int, now: int, d: int)
    requires size > 0 && 0 <= d < size
    ensures AdmittedAt(max, prev, curr, size, now, Boundary(now, size) + d)
       <==> curr as real * (1.0 - d as real / size as real) <= (max - 1) as real
  {
    AtBoundary(now, size);
    SameWindow(Boundary(now, size), size, d);
  }

  /** From the second boundary on nothing is left over. */
  lemma AdmittedLater(max: int, prev: int, curr: int, size: int, now: int, d: int)
    requires size > 0 && d >= size
    ensures AdmittedAt(max, prev, curr, size, now, Boundary(now, size) + d) <==> max >= 1
  {
    AtBoundary(now, size);
    var u := Boundary(now, size) + d;
    DivGrows(Boundary(now, size) + size, u, size);
    DivNext(Boundary(now, size), size);
  }

  lemma Share(count: int, f: real)
    requires count >= 0 && f <= 1.0
    ensures count as real * (1.0 - f) >= 0.0
  {
  }

  lemma TargetRange(level: int, count: int)
    requires 0 <= level < count
    ensures 0.0 < TargetFraction(level, count) <= 1.0
  {
    var q := level as real / count as real;
    assert q * count as real == level as real;
  }

  lemma AtTheEnd(level: int, count: int)
    requires level >= 0 && count > 0
    ensures TargetFraction(level, count) >= 1.0 <==> level == 0
  {
    var q := level as real / count as real;
    assert q * count as real == level as real;
    Rescale(q, 0.0, count as real);
  }

  // ----- the instant of relief

  /** In this window a Take is admitted from the instant `target * size` of the window on. */
  lemma ThisWindowFrom(max: int, prev: int, curr: int, size: int, now: int, d: int, target: real)
    requires size > 0 && prev > 0 && d >= 0 && now % size + d < size
    requires target == TargetFraction(max - curr - 1, prev)
    ensures AdmittedAt(max, prev, curr, size, now, now + d) <==> (now % size + d) as real >= target * size as real
  {
    AdmittedThisWindow(max, prev, curr, size, now, d);
    var x := now % size + d;
    FitsFromFraction(prev, max - curr - 1, x as real / size as real, target);
    FractionInNanos(x, size, target);
  }

  /** In the next window likewise, with the current count in the role of the previous one. */
  lemma NextWindowFrom(max: int, prev: int, curr: int, size: int, now: int, d: int, target: real)
    requires size > 0 && curr > 0 && 0 <= d < size
    requires target == TargetFraction(max - 1, curr)
    ensures AdmittedAt(max, prev, curr, size, now, Boundary(now, size) + d) <==> d as real >= target * size as real
  {
    AdmittedNextWindow(max, prev, curr, size, now, d);
    FitsFromFraction(curr, max - 1, d as real / size as real, target);
    FractionInNanos(d, size, target);
  }

  /** The current count alone is already at the maximum: nothing fits in this window. */
  lemma BlockedNow(max: int, prev: int, curr: int, size: int, now: int, d: int)
    requires size > 0 && prev >= 0 && curr + 1 > max && d >= 0 && now % size + d < size
    ensures !AdmittedAt(max, prev, curr, size, now, now + d)
  {
    AdmittedThisWindow(max, prev, curr, size, now, d);
    var x := now % size + d;
    FractionInNanos(x, size, 1.0);
    Share(prev, x as real / size as real);
  }

  // ----- where the advice lands

  /** The three cases of the advice, by what it waits for. */
  datatype Relief = Now | Decay(target: real) | NextWindow | NextDecay(target: real)

  function ReliefOf(max: int, prev: int, curr: int, size: int, now: int): Relief
    requires size > 0 && prev >= 0 && curr >= 0 && max >= 1
  {
    if Fits(max, prev, curr, now, size) then Now
    else if curr + 1 <= max then
      if prev > 0 && TargetFraction(max - curr - 1, prev) < 1.0 then Decay(TargetFraction(max - curr - 1, prev))
      else NextWindow
    else NextDecay(TargetFraction(max - 1, curr))
  }

  /** In window offsets: the advice is the first whole nanosecond after the exact instant, or the boundary itself. */
  ghost predicate Relieves(max: int, prev: int, curr: int, size: int, now: int, d: int, relief: Relief)
    requires size > 0
  {
    match relief
    case Now => d == 0 && Fits(max, prev, curr, now, size)
    case Decay(target) =>
      && prev > 0 && curr + 1 <= max && 0.0 < target < 1.0 && d > 0
      && target == TargetFraction(max - curr - 1, prev)
      && now % size + d == (target * size as real).Floor + 1
    case NextWindow => prev > 0 && curr + 1 == max && now + d == Boundary(now, size)
    case NextDecay(target) =>
      && curr >= max >= 1 && target == TargetFraction(max - 1, curr)
      && now + d == Boundary(now, size) + (target * size as real).Floor + 1
  }

  lemma AdviceByRelief(max: int, prev: int, curr: int, size: int, now: int)
    requires size > 0 && prev >= 0 && curr >= 0 && max >= 1
    ensures Relieves(max, prev, curr, size, now,
                     AfterAt(max, prev, curr, size, now), ReliefOf(max, prev, curr, size, now))
  {
    if !Fits(max, prev, curr, now, size) && curr + 1 <= max {
      BlockedByPrev(max, prev, curr, size, now);
      AtTheEnd(max - curr - 1, prev);
      if TargetFraction(max - curr - 1, prev) < 1.0 {
        DecayAdvice(max, prev, curr, size, now, TargetFraction(max - curr - 1, prev));
      }
    }
  }

  lemma DecayAdvice(max: int, prev: int, curr: int, size: int, now: int, target: real)
    requires size > 0 && prev > 0 && curr >= 0 && curr + 1 <= max && !Fits(max, prev, curr, now, size)
    requires target == TargetFraction(max - curr - 1, prev) && Elapsed(now, size) < target < 1.0
    ensures var d := AfterAt(max, prev, curr, size, now);
            d > 0 && now % size + d == (target * size as real).Floor + 1
  {
    FloorShift(target, now % size, size);
  }

  lemma BlockedByPrev(max: int, prev: int, curr: int, size: int, now: int)
    requires size > 0 && prev >= 0 && curr + 1 <= max && !Fits(max, prev, curr, now, size)
    ensures prev > 0 && Elapsed(now, size) < TargetFraction(max - curr - 1, prev)
  {
    if prev > 0 {
      FitsFromFraction(prev, max - curr - 1, Elapsed(now, size), TargetFraction(max - curr - 1, prev));
    }
  }

  /** Truncating a wait and then adding the offset is truncating the instant. */
  lemma FloorShift(target: real, off: int, size: int)
    requires size > 0 && 0 <= off < size && off as real / size as real < target
    ensures ((target - off as real / size as real) * size as real).Floor == (target * size as real).Floor - off
    ensures (target * size as real).Floor >= off
  {
    var f := off as real / size as real;
    assert f * size as real == off as real;
    assert (target - f) * size as real == target * size as real - off as real;
    FractionInNanos(off, size, target);
    FloorBetween(target * size as real);
    FloorBetween((target - f) * size as real);
  }

  lemma FloorBelow(target: real, size: int)
    requires size > 0 && 0.0 < target
    ensures target < 1.0 ==> (target * size as real).Floor < size
    ensures target <= 1.0 ==> (target * size as real).Floor <= size
    ensures (target * size as real).Floor >= 0
  {
    Rescale(1.0, target, size as real);
    Rescale(target, 1.0, size as real);
    Rescale(0.0, target, size as real);
    FloorBetween(target * size as real);
  }

  // ----- main results

  /** A Take at now + After is admitted, also when that instant lies one or two boundaries ahead. */
  lemma AdviceIsEnough(max: int, prev: int, curr: int, size: int, now: int, d: int)
    requires size > 0 && prev >= 0 && curr >= 0 && max >= 1
    requires d == AfterAt(max, prev, curr, size, now)
    ensures d >= 0 && AdmittedAt(max, prev, curr, size, now, now + d)
  {
    AdviceByRelief(max, prev, curr, size, now);
    EnoughFor(max, prev, curr, size, now, d, ReliefOf(max, prev, curr, size, now));
  }

  lemma EnoughFor(max: int, prev: int, curr: int, size: int, now: int, d: int, relief: Relief)
    requires size > 0 && curr >= 0 && Relieves(max, prev, curr, size, now, d, relief)
    ensures d >= 0 && AdmittedAt(max, prev, curr, size, now, now + d)
  {
    match relief
    case Now => EnoughNow(max, prev, curr, size, now);
    case Decay(target) => EnoughThisWindow(max, prev, curr, size, now, d, target);
    case NextWindow => EnoughAtBoundary(max, prev, curr, size, now, d);
    case NextDecay(target) => EnoughNextWindow(max, prev, curr, size, now, d, target);
  }

  lemma EnoughNow(max: int, prev: int, curr: int, size: int, now: int)
    requires size > 0 && Fits(max, prev, curr, now, size)
    ensures AdmittedAt(max, prev, curr, size, now, now)
  {
  }

  lemma EnoughAtBoundary(max: int, prev: int, curr: int, size: int, now: int, d: int)
    requires size > 0 && curr + 1 == max && now + d == Boundary(now, size)
    ensures d >= 0 && AdmittedAt(max, prev, curr, size, now, now + d)
  {
    AtBoundary(now, size);
    AdmittedNextWindow(max, prev, curr, size, now, 0);
  }

  lemma EnoughThisWindow(max: int, prev: int, curr: int, size: int, now: int, d: int, target: real)
    requires size > 0 && prev > 0 && curr >= 0 && curr + 1 <= max && d > 0
    requires target == TargetFraction(max - curr - 1, prev) && 0.0 < target < 1.0
    requires now % size + d == (target * size as real).Floor + 1
    ensures AdmittedAt(max, prev, curr, size, now, now + d)
  {
    FloorBetween(target * size as real);
    FloorBelow(target, size);
    if now % size + d < size {
      ThisWindowFrom(max, prev, curr, size, now, d, target);
    } else {
      AtBoundary(now, size);
      AdmittedNextWindow(max, prev, curr, size, now, 0);
    }
  }

  lemma EnoughNextWindow(max: int, prev: int, curr: int, size: int, now: int, d: int, target: real)
    requires size > 0 && curr >= max >= 1 && target == TargetFraction(max - 1, curr)
    requires now + d == Boundary(now, size) + (target * size as real).Floor + 1
    ensures d >= 1 && AdmittedAt(max, prev, curr, size, now, now + d)
  {
    AtBoundary(now, size);
    TargetRange(max - 1, curr);
    FloorBetween(target * size as real);
    FloorBelow(target, size);
    var e := now + d - Boundary(now, size);
    if e < size {
      NextWindowFrom(max, prev, curr, size, now, e, target);
    } else {
      AdmittedLater(max, prev, curr, size, now, e);
    }
  }

  /** No Take more than a nanosecond earlier is. */
  lemma AdviceIsTight(max: int, prev: int, curr: int, size: int, now: int, d: int, u: int)
    requires size > 0 && prev >= 0 && curr >= 0 && max >= 1
    requires d == AfterAt(max, prev, curr, size, now) && now <= u < now + d - 1
    ensures !AdmittedAt(max, prev, curr, size, now, u)
  {
    AdviceByRelief(max, prev, curr, size, now);
    TightFor(max, prev, curr, size, now, d, u, ReliefOf(max, prev, curr, size, now));
  }

  lemma TightFor(max: int, prev: int, curr: int, size: int, now: int, d: int, u: int, relief: Relief)
    requires size > 0 && prev >= 0 && curr >= 0 && Relieves(max, prev, curr, size, now, d, relief)
    requires now <= u < now + d - 1
    ensures !AdmittedAt(max, prev, curr, size, now, u)
  {
    match relief
    case Decay(target) => TightThisWindow(max, prev, curr, size, now, u - now, target);
    case NextWindow => TightToBoundary(max, prev, curr, size, now, u);
    case NextDecay(target) => TightPastBoundary(max, prev, curr, size, now, u, target);
  }

  lemma TightToBoundary(max: int, prev: int, curr: int, size: int, now: int, u: int)
    requires size > 0 && prev > 0 && curr + 1 == max && now <= u < Boundary(now, size) - 1
    ensures !AdmittedAt(max, prev, curr, size, now, u)
  {
    AtBoundary(now, size);
    AtTheEnd(0, prev);
    TightThisWindow(max, prev, curr, size, now, u - now, TargetFraction(0, prev));
  }

  lemma TightPastBoundary(max: int, prev: int, curr: int, size: int, now: int, u: int, target: real)
    requires size > 0 && prev >= 0 && curr >= max >= 1 && target == TargetFraction(max - 1, curr)
    requires now <= u < Boundary(now, size) + (target * size as real).Floor
    ensures !AdmittedAt(max, prev, curr, size, now, u)
  {
    AtBoundary(now, size);
    if now % size + (u - now) < size {
      BlockedNow(max, prev, curr, size, now, u - now);
    } else {
      TightNextWindow(max, prev, curr, size, now, u - Boundary(now, size), target);
    }
  }

  lemma TightThisWindow(max: int, prev: int, curr: int, size: int, now: int, e: int, target: real)
    requires size > 0 && prev > 0 && e >= 0
    requires target == TargetFraction(max - curr - 1, prev) && 0.0 < target <= 1.0
    requires now % size + e < (target * size as real).Floor
    ensures !AdmittedAt(max, prev, curr, size, now, now + e)
  {
    FloorBetween(target * size as real);
    FloorBelow(target, size);
    ThisWindowFrom(max, prev, curr, size, now, e, target);
  }

  lemma TightNextWindow(max: int, prev: int, curr: int, size: int, now: int, e: int, target: real)
    requires size > 0 && curr >= max >= 1 && e >= 0
    requires target == TargetFraction(max - 1, curr) && e < (target * size as real).Floor
    ensures !AdmittedAt(max, prev, curr, size, now, Boundary(now, size) + e)
  {
    TargetRange(max - 1, curr);
    FloorBetween(target * size as real);
    FloorBelow(target, size);
    NextWindowFrom(max, prev, curr, size, now, e, target);
  }

  /** Rolling in two stages is rolling at once. */
  lemma RollTwice(t: Item, v: int, w: int)
    requires t.window <= v <= w
    ensures Rolled(Rolled(t, v), w) == Rolled(t, w)
  {
  }

  lemma TakenIsAdmittedAt(storage: map<string, Item>, key: string, now: int, size: int, max: int, u: int)
    requires size > 0 && key in storage && storage[key].window <= now / size && now <= u
    ensures var t := Rolled(storage[key], now / size);
            Taken(storage, key, u, size, max).1 <==> AdmittedAt(max, t.prev, t.curr, size, now, u)
  {
    DivGrows(now, u, size);
    RollTwice(storage[key], now / size, u / size);
  }

  /** The table at `now`: counts are not negative and no item is of a later window. */
  ghost predicate Timely(storage: map<string, Item>, now: int, size: int)
    requires size > 0
  {
    forall k :: k in storage ==> storage[k].prev >= 0 && storage[k].curr >= 0 && storage[k].window <= now / size
  }

  /** The advice given for a key: a Take then is admitted, one more than a nanosecond earlier is not. */
  lemma RetryAfterIsExact(storage: map<string, Item>, key: string, now: int, size: int, max: int, d: int)
    requires size > 0 && max >= 1
    requires key in storage ==>
               storage[key].prev >= 0 && storage[key].curr >= 0 && storage[key].window <= now / size
    requires d == After(storage, key, now, size, max)
    ensures d >= 0 && Taken(storage, key, now + d, size, max).1
    ensures forall u :: now <= u < now + d - 1 ==> !Taken(storage, key, u, size, max).1
  {
    if key in storage {
      var t := Rolled(storage[key], now / size);
      AdviceIsEnough(max, t.prev, t.curr, size, now, d);
      TakenIsAdmittedAt(storage, key, now, size, max, now + d);
      forall u | now <= u < now + d - 1
        ensures !Taken(storage, key, u, size, max).1
      {
        AdviceIsTight(max, t.prev, t.curr, size, now, d, u);
        TakenIsAdmittedAt(storage, key, now, size, max, u);
      }
    }
  }

  /** No wait is advised exactly when a Take now is admitted. */
  lemma NoWaitIffAdmittedNow(storage: map<string, Item>, key: string, now: int, size: int, max: int)
    requires size > 0 && max >= 1 && Timely(storage, now, size)
    ensures After(storage, key, now, size, max) == 0 <==> Taken(storage, key, now, size, max).1
  {
    if key in storage {
      var t := Rolled(storage[key], now / size);
      AdviceByRelief(max, t.prev, t.curr, size, now);
      AtBoundary(now, size);
      WaitsWhenBlocked(max, t.prev, t.curr, size, now, After(storage, key, now, size, max),
                       ReliefOf(max, t.prev, t.curr, size, now));
    }
  }

  lemma WaitsWhenBlocked(max: int, prev: int, curr: int, size: int, now: int, d: int, relief: Relief)
    requires size > 0 && Relieves(max, prev, curr, size, now, d, relief)
    ensures !relief.Now? ==> d > 0
  {
    AtBoundary(now, size);
    if relief.NextDecay? {
      TargetRange(max - 1, curr);
      FloorBelow(relief.target, size);
    }
  }

  // ----- and exactly when

  /** Whoever heeds the advice is admitted. */
  ghost predicate KeepsItsWord(size: int, max: int)
    requires size > 0
  {
    forall storage, key, now ::
      Timely(storage, now, size) ==> Taken(storage, key, now + After(storage, key, now, size, max), size, max).1
  }

  /** With a maximum of 0 or less no instant is right, for a known key or an unknown one. */
  lemma AdviceInVain(storage: map<string, Item>, key: string, now: int, size: int, max: int, u: int)
    requires size > 0 && max <= 0 && Timely(storage, now, size)
    ensures !Taken(storage, key, u, size, max).1
  {
    var t := Current(storage, key, u, size);
    assert t.prev as real * (1.0 - Elapsed(u, size)) >= 0.0;
  }

  /** The advice is right for every table, key and instant if and only if the maximum is at least 1. */
  lemma KeepsItsWordIff(size: int, max: int)
    requires size > 0
    ensures KeepsItsWord(size, max) <==> max >= 1
  {
    if max >= 1 {
      forall storage, key, now | Timely(storage, now, size)
        ensures Taken(storage, key, now + After(storage, key, now, size, max), size, max).1
      {
        RetryAfterIsExact(storage, key, now, size, max, After(storage, key, now, size, max));
      }
    } else {
      var storage: map<string, Item> := map[];
      AdviceInVain(storage, "k", 0, size, max, 0 + After(storage, "k", 0, size, max));
      assert Timely(storage, 0, size);
    }
  }

  // ----- a reading made before the lock

  /** After reads the clock before it takes the lock, so the item may stand at a later window. */
  ghost predicate RightFor(window: int, now: int, size: int, max: int)
    requires size > 0
  {
    forall prev, curr :: prev >= 0 && curr >= 0 ==>
      var storage := map["k" := Item(window, curr, prev)];
      Taken(storage, "k", now + After(storage, "k", now, size, max), size, max).1
  }

  /** The advice for an item at `window`, read at `now`, is right whatever its counts if and only if the
      window is not past that of the reading. */
  lemma RightIffNotPast(window: int, now: int, size: int, max: int)
    requires size > 0 && max >= 1
    ensures RightFor(window, now, size, max) <==> window <= now / size
  {
    if window <= now / size {
      forall prev, curr | prev >= 0 && curr >= 0
        ensures var storage := map["k" := Item(window, curr, prev)];
                Taken(storage, "k", now + After(storage, "k", now, size, max), size, max).1
      {
        var storage := map["k" := Item(window, curr, prev)];
        RetryAfterIsExact(storage, "k", now, size, max, After(storage, "k", now, size, max));
      }
    } else {
      PastIsDenied(window, now, size, max);
    }
  }

  /** The item that exposes it: one left in the previous window, and the current one short of full by one. */
  lemma PastIsDenied(window: int, now: int, size: int, max: int)
    requires size > 0 && max >= 1 && window > now / size
    ensures var storage := map["k" := Item(window, max - 1, 1)];
            !Taken(storage, "k", now + After(storage, "k", now, size, max), size, max).1
  {
    var storage := map["k" := Item(window, max - 1, 1)];
    assert 1.0 - Elapsed(now, size) > 0.0;
    assert TargetFraction(0, 1) == 1.0;
    AtBoundary(now, size);
    assert After(storage, "k", now, size, max) == Boundary(now, size) - now;
    assert Elapsed(Boundary(now, size), size) == 0.0;
  }

  // ----- where a wait for decay ends

  /** A wait for the previous window to decay ends before the boundary if and only if what may be left of
      it, times the size, exceeds its count; otherwise it ends on the boundary. */
  lemma DecayEndsBeforeBoundaryIff(max: int, prev: int, curr: int, size: int, now: int)
    requires size > 0 && prev >= 0 && curr >= 0 && curr + 1 < max && !Fits(max, prev, curr, now, size)
    ensures var end := now + AfterAt(max, prev, curr, size, now);
            && end <= Boundary(now, size)
            && (end < Boundary(now, size) <==> prev < (max - curr - 1) * size)
  {
    var level := max - curr - 1;
    BlockedByPrev(max, prev, curr, size, now);
    AtTheEnd(level, prev);
    var target := TargetFraction(level, prev);
    DecayAdvice(max, prev, curr, size, now, target);
    AtBoundary(now, size);
    DecayFloor(level, prev, size, target);
  }

  lemma DecayFloor(level: int, prev: int, size: int, target: real)
    requires level >= 1 && prev > 0 && size > 0 && target == TargetFraction(level, prev)
    ensures (target * size as real).Floor + 1 <= size
    ensures (target * size as real).Floor + 1 < size <==> prev < level * size
  {
    var x, q := target * size as real, level as real / prev as real;
    assert q * prev as real == level as real;
    assert x == size as real - q * size as real;
    var y := q * size as real;
    assert y * prev as real == level as real * size as real;
    assert level as real * size as real == (level * size) as real;
    Rescale(y, 1.0, prev as real);
    Rescale(y, 0.0, prev as real);
    FloorBetween(x);
  }

  /** Three requests left over, one made, a maximum of three and windows of 2 ns: the wait ends on the boundary. */
  lemma DecayEndsOnBoundary()
    ensures AfterAt(3, 3, 1, 2, 0) == 2 == Boundary(0, 2)
  {
    assert !Fits(3, 3, 1, 0, 2);
    DecayEndsBeforeBoundaryIff(3, 3, 1, 2, 0);
    AtBoundary(0, 2);
  }
}
