/**
 How far the sliding window can be stretched: the exact number of requests of a key that an interval
 of one window's length can admit, at worst over all runs and all such intervals.
 */
module WindowWorstCase {
  import opened Arithmetic
  import opened SlidingWindow

  /** The latest an interval that began in one window can admit in the next is the offset size - 2. */
  function Reach(size: int): int {
    if size >= 2 then size - 2 else 0
  }

  /** A full window, and what fits beside it at that offset of the next. */
  function Worst(size: int, max: int): int
    requires size > 0
  {
    max + max * Reach(size) / size
  }

  // ----- no interval admits more

  /** An admission of the next window inside the interval comes at an offset of at most size - 2. */
  lemma OffsetBound(a: int, t: int, size: int)
    requires size > 0 && a <= t < a + size && t / size == a / size + 1
    ensures size >= 2 && t % size <= Reach(size)
  {
    var w := a / size;
    assert a == w * size + a % size && t == (w + 1) * size + t % size;
    OneMore(w, size);
  }

  lemma InNanos(total: nat, p: nat, max: int, off: int, size: int, f: real)
    requires size > 0 && f == off as real / size as real
    requires total as real <= max as real + p as real * f
    ensures (total - max) * size <= p * off
  {
    var x := total as real - max as real;
    assert f * size as real == off as real;
    Scaled(x, p as real * f, size as real);
    assert (p as real * f) * size as real == p as real * off as real;
    assert x * size as real == ((total - max) * size) as real;
    assert p as real * off as real == (p * off) as real;
  }

  lemma Scaled(x: real, y: real, k: real)
    requires x <= y && k > 0.0
    ensures x * k <= y * k
  {
  }

  lemma Larger(p: int, off: int, max: int, reach: int)
    requires 0 <= p <= max && 0 <= off <= reach
    ensures p * off <= max * reach
  {
    assert p * off <= max * off;
    assert max * off <= max * reach;
  }

  lemma AtMostWorst(total: nat, p: nat, max: int, off: int, size: int)
    requires size > 0 && p <= max && 0 <= off <= Reach(size) && (total - max) * size <= p * off
    ensures total <= Worst(size, max)
  {
    Larger(p, off, max, Reach(size));
    DivBound(total - max, size, max * Reach(size));
  }

  lemma WorstAtLeastMax(size: int, max: int)
    requires size > 0 && max >= 0
    ensures Worst(size, max) >= max
  {
    assert max * Reach(size) >= 0;
    DivBound(0, size, max * Reach(size));
  }

  /** An interval whose latest admission to enter the lock is the log's last. */
  lemma EndingBound(log: seq<Admit>, key: string, a: int, size: int, max: int)
    requires size > 0 && Justified(log, key, size, max) && max >= 1 && log != []
    requires log[|log| - 1].key == key && a <= log[|log| - 1].time < a + size
    ensures CountIn(log, key, a, a + size) <= Worst(size, max)
  {
    var front, e, w := log[..|log| - 1], log[|log| - 1], a / size;
    Shorter(log, key, size, max);
    OneOrTwo(a, e.time, size);
    if e.time / size == w {
      AlignedWindowCap(log, key, w, size, max);
      IntervalMeetsOne(log, key, a, size);
      WorstAtLeastMax(size, max);
    } else {
      assert front + [e] == log;
      SpanningBound(front, e, a, size, max, CountIn(log, key, a, a + size));
    }
  }

  lemma SpanningBound(front: seq<Admit>, e: Admit, a: int, size: int, max: int, total: nat)
    requires size > 0 && Justified(front, e.key, size, max) && max >= 1 && Ideal(front, e.key, e.time, size, max)
    requires a <= e.time < a + size && e.time / size == a / size + 1
    requires total == CountIn(front + [e], e.key, a, a + size)
    ensures total <= Worst(size, max)
  {
    var w, p, f := a / size, Count(front, e.key, a / size, size), Elapsed(e.time, size);
    AlignedWindowCap(front, e.key, w, size, max);
    LastAdmitBound(front, e, a, size, max, w, total, p, f);
    OffsetBound(a, e.time, size);
    InNanos(total, p, max, e.time % size, size, f);
    AtMostWorst(total, p, max, e.time % size, size);
  }

  lemma {:induction false} IntervalBound(log: seq<Admit>, key: string, a: int, size: int, max: int)
    requires size > 0 && Justified(log, key, size, max) && max >= 1
    ensures CountIn(log, key, a, a + size) <= Worst(size, max)
  {
    if log == [] {
      WorstAtLeastMax(size, max);
    } else {
      var e := log[|log| - 1];
      if e.key == key && a <= e.time < a + size {
        EndingBound(log, key, a, size, max);
      } else {
        Shorter(log, key, size, max);
        IntervalBound(log[..|log| - 1], key, a, size, max);
      }
    }
  }

  /** For every run in which the key's readings enter the lock in the order of their windows, and every
      interval of one window's length. */
  lemma WorstIsBound(events: seq<Event>, key: string, a: int, size: int, max: int)
    requires size > 0 && InOrder(events, key, size) && max >= 1
    ensures CountIn(Run(events, size, max).log, key, a, a + size) <= Worst(size, max)
  {
    LogsAreJustified(events, key, size, max);
    IntervalBound(Run(events, size, max).log, key, a, size, max);
  }

  // ----- and some interval does: a burst at the end of a window, another just before the end of the next

  const KEY := "k"

  function Burst(k: nat, time: int): seq<Event> {
    seq(k, _ => Take(KEY, time))
  }

  function Admits(k: nat, time: int): seq<Admit> {
    seq(k, _ => Admit(KEY, time))
  }

  lemma BurstNext(k: nat, time: int)
    requires k > 0
    ensures Burst(k, time) == Burst(k - 1, time) + [Take(KEY, time)]
    ensures Admits(k, time) == Admits(k - 1, time) + [Admit(KEY, time)]
  {
  }

  /** With nothing before, everything fits, up to the maximum. */
  lemma {:induction false} FirstBurst(k: nat, now: int, size: int, max: int)
    requires size >= 1 && 1 <= k <= max
    ensures Run(Burst(k, now), size, max) == State(map[KEY := Item(now / size, k, 0)], Admits(k, now))
  {
    BurstNext(k, now);
    RunNext(Burst(k - 1, now), Take(KEY, now), size, max);
    if k == 1 {
      assert Burst(0, now) == [] && Admits(0, now) == [];
    } else {
      FirstBurst(k - 1, now, size, max);
    }
    assert Fits(max, 0, k - 1, now, size);
  }

  lemma Windows(size: int)
    requires size >= 2
    ensures (2 * size - 2) / size == 1 && (2 * size - 2) % size == size - 2
  {
    assert 2 * size - 2 == 1 * size + (size - 2);
  }

  lemma StillFits(j: nat, now: int, size: int, max: int)
    requires size >= 1 && max >= 1 && 1 <= j && j * size <= max * (now % size)
    ensures Fits(max, max, j - 1, now, size)
  {
    var s, m, k, off := size as real, max as real, j as real, (now % size) as real;
    assert k * s <= m * off by {
      assert k * s == (j * size) as real && m * off == (max * (now % size)) as real;
    }
    Remaining(s, m, k, off);
  }

  lemma Remaining(s: real, m: real, k: real, off: real)
    requires s > 0.0 && k * s <= m * off
    ensures m * (1.0 - off / s) + k <= m
  {
    var q := off / s;
    assert q * s == off;
    assert (m * q) * s == m * off;
    Unscaled(k, m * q, s);
    assert m * (1.0 - q) == m - m * q;
  }

  lemma Unscaled(x: real, y: real, k: real)
    requires k > 0.0 && x * k <= y * k
    ensures x <= y
  {
  }

  /** The item after `j` requests of the second burst. */
  function Held(j: nat, max: int): Item {
    if j == 0 then Item(0, max, 0) else Item(1, j, max)
  }

  /** Late in the next window little of the first burst counts any more. */
  lemma SecondStep(j: nat, now: int, size: int, max: int, log: seq<Admit>)
    requires size >= 1 && max >= 1 && 1 <= j && now / size == 1 && j * size <= max * (now % size)
    ensures Apply(State(map[KEY := Held(j - 1, max)], log), Take(KEY, now), size, max)
         == State(map[KEY := Held(j, max)], log + [Admit(KEY, now)])
  {
    StillFits(j, now, size, max);
    assert Current(map[KEY := Held(j - 1, max)], KEY, now, size) == Item(1, j - 1, max);
  }

  /** Where `j` more fit, one fewer fits too. */
  lemma FewerFit(j: nat, size: int, room: int)
    requires size >= 1 && j >= 1 && j * size <= room
    ensures (j - 1) * size <= room
  {
    OneMore(j - 1, size);
  }

  lemma {:induction false} SecondBurst(j: nat, now: int, size: int, max: int, first: seq<Event>, log: seq<Admit>)
    requires size >= 1 && max >= 1 && (j == 0 || now / size == 1) && j * size <= max * (now % size)
    requires Run(first, size, max) == State(map[KEY := Held(0, max)], log)
    ensures Run(first + Burst(j, now), size, max) == State(map[KEY := Held(j, max)], log + Admits(j, now))
  {
    if j == 0 {
      assert first + Burst(0, now) == first && log + Admits(0, now) == log;
    } else {
      FewerFit(j, size, max * (now % size));
      SecondBurst(j - 1, now, size, max, first, log);
      SecondNext(j, now, size, max, first + Burst(j - 1, now), log + Admits(j - 1, now));
      BurstNext(j, now);
      assert first + Burst(j, now) == first + Burst(j - 1, now) + [Take(KEY, now)];
      assert log + Admits(j, now) == log + Admits(j - 1, now) + [Admit(KEY, now)];
    }
  }

  lemma SecondNext(j: nat, now: int, size: int, max: int, events: seq<Event>, log: seq<Admit>)
    requires size >= 1 && max >= 1 && 1 <= j && now / size == 1 && j * size <= max * (now % size)
    requires Run(events, size, max) == State(map[KEY := Held(j - 1, max)], log)
    ensures Run(events + [Take(KEY, now)], size, max)
         == State(map[KEY := Held(j, max)], log + [Admit(KEY, now)])
  {
    RunNext(events, Take(KEY, now), size, max);
    SecondStep(j, now, size, max, log);
  }

  lemma {:induction false} CountAll(log: seq<Admit>, a: int, b: int)
    requires forall i :: 0 <= i < |log| ==> log[i].key == KEY && a <= log[i].time < b
    ensures CountIn(log, KEY, a, b) == |log|
  {
    if log != [] {
      CountAll(log[..|log| - 1], a, b);
    }
  }

  lemma BurstsOrdered(k: nat, time: int, j: nat, later: int)
    requires 0 <= time <= later
    ensures Ordered(Burst(k, time) + Burst(j, later))
  {
    var events := Burst(k, time) + Burst(j, later);
    assert forall i :: 0 <= i < |events| ==> events[i] == Take(KEY, if i < k then time else later);
  }

  lemma AdmitsCount(k: nat, time: int, j: nat, later: int, a: int, b: int)
    requires a <= time < b && a <= later < b
    ensures CountIn(Admits(k, time) + Admits(j, later), KEY, a, b) == k + j
  {
    CountAll(Admits(k, time) + Admits(j, later), a, b);
  }

  lemma BothBursts(size: int, max: int, j: nat, events: seq<Event>, log: seq<Admit>)
    requires size >= 1 && max >= 1 && j * size <= max * Reach(size)
    requires events == Burst(max, size - 1) + Burst(j, 2 * size - 2)
    requires log == Admits(max, size - 1) + Admits(j, 2 * size - 2)
    ensures Run(events, size, max).log == log
  {
    DivMod(0, size - 1, size, size - 1);
    FirstBurst(max, size - 1, size, max);
    if size >= 2 {
      Windows(size);
    } else {
      AtMostNone(j, max);
    }
    SecondBurst(j, 2 * size - 2, size, max, Burst(max, size - 1), Admits(max, size - 1));
  }

  lemma AtMostNone(j: nat, max: int)
    requires j * 1 <= max * 0
    ensures j == 0
  {
  }

  /** For every maximum and every window size, some run reaches the bound. */
  lemma WorstIsReached(size: int, max: int) returns (events: seq<Event>, log: seq<Admit>)
    requires size >= 1 && max >= 1
    ensures Ordered(events) && log == Run(events, size, max).log
    ensures CountIn(log, KEY, size - 1, size - 1 + size) == Worst(size, max)
  {
    WorstAtLeastMax(size, max);
    var j := Worst(size, max) - max;
    DivBound(j, size, max * Reach(size));
    events := Burst(max, size - 1) + Burst(j, 2 * size - 2);
    log := Admits(max, size - 1) + Admits(j, 2 * size - 2);
    BothBursts(size, max, j, events, log);
    AdmitsCount(max, size - 1, j, 2 * size - 2, size - 1, size - 1 + size);
    BurstsOrdered(max, size - 1, j, 2 * size - 2);
  }

  /** One short of twice the maximum, exactly from a window of 2*max nanoseconds on. */
  lemma TwiceIsTight(size: int, max: int)
    requires size >= 1 && max >= 1
    ensures Worst(size, max) <= 2 * max - 1
    ensures Worst(size, max) == 2 * max - 1 <==> size >= 2 * max || max == 1
  {
    var x := max * Reach(size);
    DivBound(max - 1, size, x);
    DivBound(max, size, x);
    if size >= 2 {
      assert x == max * size - 2 * max;
      assert (max - 1) * size == max * size - size;
    }
  }
}
