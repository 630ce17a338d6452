/**
 The sliding-window-counter rate limiter: two counters per key, a janitor that evicts idle keys,
 and what every run of it admits.  The blend of the two counters is taken over the reals, where
 the code uses floating point.
 */
module SlidingWindow {
  import opened Arithmetic

  datatype Item = Item(window: int, curr: int, prev: int)

  /** A non-positive window size falls back to one second. */
  function EffectiveSize(size: int): (s: int)
    ensures s > 0 && (size > 0 ==> s == size) && (s != size ==> s == 1_000_000_000)
  {
    if size <= 0 then SECOND else size
  }

  /** The item moved to window `w`: one boundary shifts the counts, a larger gap clears them. */
  function Rolled(t: Item, w: int): Item {
    var d := w - t.window;
    if d <= 0 then t.(window := w)
    else if d == 1 then Item(w, 0, t.curr)
    else Item(w, 0, 0)
  }

  /** How much of the current window is gone. */
  function Elapsed(now: int, size: int): (f: real)
    requires size > 0
    ensures 0.0 <= f < 1.0
  {
    (now % size) as real / size as real
  }

  function WeightedCount(prev: int, curr: int, now: int, size: int): real
    requires size > 0
  {
    prev as real * (1.0 - Elapsed(now, size)) + curr as real
  }

  /** The request fits when the blend, with it counted, stays within the maximum. */
  predicate Fits(max: int, prev: int, curr: int, now: int, size: int)
    requires size > 0
  {
    WeightedCount(prev, curr, now, size) + 1.0 <= max as real
  }

  /** The item a Take works on: rolled to the current window, created when the key is unknown. */
  function Current(storage: map<string, Item>, key: string, now: int, size: int): Item
    requires size > 0
  {
    if key in storage then Rolled(storage[key], now / size) else Item(now / size, 0, 0)
  }

  function Taken(storage: map<string, Item>, key: string, now: int, size: int, max: int): (map<string, Item>, bool)
    requires size > 0
  {
    var t := Current(storage, key, now, size);
    if Fits(max, t.prev, t.curr, now, size) then (storage[key := t.(curr := t.curr + 1)], true)
    else (storage[key := t], false)
  }

  /** Keys two windows old are dropped. */
  function Swept(storage: map<string, Item>, now: int, size: int): map<string, Item>
    requires size > 0
  {
    map k | k in storage && storage[k].window >= now / size - 1 :: storage[k]
  }

  class Limiter {
    const max: int
    const size: int
    var storage: map<string, Item>
    var cleanupRunning: bool

    /** Keys in store always have a live janitor. */
    ghost predicate Valid()
      reads this
    {
      size > 0 && (storage != map[] ==> cleanupRunning)
    }

    constructor (max: int, size: int)
      ensures Valid() && this.max == max && this.size == EffectiveSize(size) && storage == map[]
    {
      this.max, this.size := max, EffectiveSize(size);
      storage, cleanupRunning := map[], false;
    }

    method Take(key: string, now: int) returns (ok: bool)
      requires Valid()
      modifies this
      ensures Valid() && cleanupRunning
      ensures (storage, ok) == Taken(old(storage), key, now, size, max)
    {
      var currentWindow := now / size;
      var t := if key in storage then storage[key] else Item(currentWindow, 0, 0);
      t := Rolled(t, currentWindow);
      storage := storage[key := t];
      if !cleanupRunning {
        cleanupRunning := true;
      }
      if WeightedCount(t.prev, t.curr, now, size) + 1.0 > max as real {
        return false;
      }
      storage := storage[key := t.(curr := t.curr + 1)];
      assert storage == old(storage)[key := t.(curr := t.curr + 1)];
      return true;
    }

    /** The sweep; the one that empties the map also stops the janitor, in the same critical section. */
    method EvictStale(now: int) returns (stopped: bool)
      requires Valid()
      modifies this
      ensures Valid() && storage == Swept(old(storage), now, size)
      ensures stopped <==> storage == map[]
      ensures cleanupRunning <==> old(cleanupRunning) && !stopped
    {
      var deleteBefore := now / size - 1;
      var todo := storage.Keys;
      while todo != {}
        invariant todo <= storage.Keys <= old(storage).Keys
        invariant forall k :: k in storage ==> storage[k] == old(storage)[k]
        invariant forall k :: k in old(storage) && k !in todo ==>
                    (k in storage <==> old(storage)[k].window >= deleteBefore)
        invariant cleanupRunning == old(cleanupRunning)
        decreases todo
      {
        var k :| k in todo;
        todo := todo - {k};
        if storage[k].window < deleteBefore {
          storage := storage - {k};
        }
      }
      assert storage == Swept(old(storage), now, size);
      if |storage| > 0 {
        return false;
      }
      cleanupRunning := false;
      return true;
    }
  }

  // ----- runs

  /** A request admitted: whose, and when. */
  datatype Admit = Admit(key: string, time: int)

  datatype Event = Take(key: string, now: int) | Sweep(at: int)

  datatype State = State(storage: map<string, Item>, log: seq<Admit>)

  function Apply(s: State, e: Event, size: int, max: int): State
    requires size > 0
  {
    match e
    case Take(key, now) =>
      var (storage, ok) := Taken(s.storage, key, now, size, max);
      State(storage, if ok then s.log + [Admit(key, now)] else s.log)
    case Sweep(at) => s.(storage := Swept(s.storage, at, size))
  }

  function Run(events: seq<Event>, size: int, max: int): State
    requires size > 0
  {
    if events == [] then State(map[], [])
    else Apply(Run(events[..|events| - 1], size, max), events[|events| - 1], size, max)
  }

  lemma RunNext(events: seq<Event>, e: Event, size: int, max: int)
    requires size > 0
    ensures Run(events + [e], size, max) == Apply(Run(events, size, max), e, size, max)
  {
    assert (events + [e])[..|events|] == events;
  }

  function Stamp(e: Event): int {
    if e.Take? then e.now else e.at
  }

  /** Requests enter the lock in the order of their readings; a sweep may act on an older reading. */
  ghost predicate Ordered(events: seq<Event>) {
    && (forall i :: 0 <= i < |events| ==> Stamp(events[i]) >= 0)
    && (forall i, j :: 0 <= i < j < |events| && events[j].Take? ==> Stamp(events[i]) <= events[j].now)
  }

  /** The window a key stands at: that of its last Take, or of a later sweep. */
  function Mark(events: seq<Event>, key: string, size: int): int
    requires size > 0
  {
    if events == [] then 0
    else
      var mark, e := Mark(events[..|events| - 1], key, size), events[|events| - 1];
      match e
      case Take(k, now) => if k == key then now / size else mark
      case Sweep(at) => if at / size > mark then at / size else mark
  }

  /** How often a Take of the key went back across a window boundary: its reading, made before the
      lock, was of an earlier window than the key stood at. */
  function StepsBack(events: seq<Event>, key: string, size: int): nat
    requires size > 0
  {
    if events == [] then 0
    else
      var front, e := events[..|events| - 1], events[|events| - 1];
      StepsBack(front, key, size)
      + (if e.Take? && e.key == key && e.now / size < Mark(front, key, size) then 1 else 0)
  }

  /** The key's readings enter the lock in the order of their windows; inside a window in any order. */
  predicate InOrder(events: seq<Event>, key: string, size: int)
    requires size > 0
  {
    StepsBack(events, key, size) == 0
  }

  lemma InOrderNext(events: seq<Event>, e: Event, key: string, size: int)
    requires size > 0
    ensures Mark(events + [e], key, size)
         == (match e
             case Take(k, now) => if k == key then now / size else Mark(events, key, size)
             case Sweep(at) => if at / size > Mark(events, key, size) then at / size else Mark(events, key, size))
    ensures InOrder(events + [e], key, size)
       <==> InOrder(events, key, size) && !(e.Take? && e.key == key && e.now / size < Mark(events, key, size))
  {
    assert (events + [e])[..|events|] == events;
  }

  lemma {:induction false} MarkBound(events: seq<Event>, key: string, size: int, now: int)
    requires size > 0 && now >= 0 && forall i :: 0 <= i < |events| ==> Stamp(events[i]) <= now
    ensures Mark(events, key, size) <= now / size
  {
    if events == [] {
      DivGrows(0, now, size);
    } else {
      MarkBound(events[..|events| - 1], key, size, now);
      DivGrows(Stamp(events[|events| - 1]), now, size);
    }
  }

  /** Readings in order are windows in order. */
  lemma {:induction false} OrderedIsInOrder(events: seq<Event>, key: string, size: int)
    requires size > 0 && Ordered(events)
    ensures InOrder(events, key, size)
  {
    if events != [] {
      var front, e := events[..|events| - 1], events[|events| - 1];
      OrderedIsInOrder(front, key, size);
      if e.Take? {
        MarkBound(front, key, size, e.now);
      }
    }
  }

  /** How many of the key's admissions fall into window `w`. */
  function Count(log: seq<Admit>, key: string, w: int, size: int): nat
    requires size > 0
  {
    if log == [] then 0
    else
      var a := log[|log| - 1];
      Count(log[..|log| - 1], key, w, size) + (if a.key == key && a.time / size == w then 1 else 0)
  }

  /** What a limiter with unbounded memory would decide, looking at the admissions themselves. */
  ghost predicate Ideal(log: seq<Admit>, key: string, now: int, size: int, max: int)
    requires size > 0
  {
    Fits(max, Count(log, key, now / size - 1, size), Count(log, key, now / size, size), now, size)
  }

  /** The key has no admission in window `w` or later. */
  ghost predicate QuietFrom(log: seq<Admit>, key: string, w: int, size: int)
    requires size > 0
  {
    forall i :: 0 <= i < |log| && log[i].key == key ==> log[i].time / size < w
  }

  lemma {:induction false} QuietCountsNone(log: seq<Admit>, key: string, w: int, v: int, size: int)
    requires size > 0 && QuietFrom(log, key, w, size) && v >= w
    ensures Count(log, key, v, size) == 0
  {
    if log != [] {
      QuietCountsNone(log[..|log| - 1], key, w, v, size);
    }
  }

  /** What the two counters stand for, for a key in store and for one that is not; `mark` is where the key stands. */
  ghost predicate Explains(storage: map<string, Item>, log: seq<Admit>, key: string, mark: int, size: int)
    requires size > 0
  {
    if key in storage then
      var t := storage[key];
      && t.window <= mark
      && t.curr == Count(log, key, t.window, size)
      && t.prev == Count(log, key, t.window - 1, size)
      && QuietFrom(log, key, t.window + 1, size)
    else QuietFrom(log, key, mark - 1, size)
  }

  /** As windows pass, the counters keep their meaning, and rolling gives the two windows that matter. */
  lemma RolledExplains(storage: map<string, Item>, log: seq<Admit>, key: string, mark: int, now: int, size: int)
    requires size > 0 && mark <= now / size && Explains(storage, log, key, mark, size)
    ensures Explains(storage, log, key, now / size, size)
    ensures var t := Current(storage, key, now, size);
            && t.window == now / size
            && t.curr == Count(log, key, now / size, size)
            && t.prev == Count(log, key, now / size - 1, size)
            && QuietFrom(log, key, now / size + 1, size)
  {
    var w := now / size;
    if key in storage {
      var t := storage[key];
      if w >= t.window + 1 {
        QuietCountsNone(log, key, t.window + 1, w, size);
      }
      if w >= t.window + 2 {
        QuietCountsNone(log, key, t.window + 1, w - 1, size);
      }
    } else {
      QuietCountsNone(log, key, mark - 1, w, size);
      QuietCountsNone(log, key, mark - 1, w - 1, size);
    }
  }

  /** An admission of another key changes nothing for this one. */
  lemma OtherKey(log: seq<Admit>, a: Admit, key: string, w: int, size: int)
    requires size > 0
    ensures Count(log + [a], key, w, size)
         == Count(log, key, w, size) + (if a.key == key && a.time / size == w then 1 else 0)
  {
    assert (log + [a])[..|log|] == log;
  }

  /** A Take decides as the ideal limiter does. */
  lemma TakeIsIdeal(s: State, key: string, mark: int, now: int, size: int, max: int)
    requires size > 0 && mark <= now / size && Explains(s.storage, s.log, key, mark, size)
    ensures Taken(s.storage, key, now, size, max).1 <==> Ideal(s.log, key, now, size, max)
  {
    RolledExplains(s.storage, s.log, key, mark, now, size);
  }

  lemma TakeExplains(s: State, key: string, mark: int, now: int, size: int, max: int)
    requires size > 0 && mark <= now / size && Explains(s.storage, s.log, key, mark, size)
    ensures var s' := Apply(s, Take(key, now), size, max);
            Explains(s'.storage, s'.log, key, now / size, size)
  {
    var s' := Apply(s, Take(key, now), size, max);
    RolledExplains(s.storage, s.log, key, mark, now, size);
    if s'.log != s.log {
      OtherKey(s.log, Admit(key, now), key, now / size, size);
      OtherKey(s.log, Admit(key, now), key, now / size - 1, size);
    }
  }

  /** A Take of another key leaves this one alone. */
  lemma OtherExplains(s: State, other: string, now: int, size: int, max: int, key: string, mark: int)
    requires size > 0 && other != key && Explains(s.storage, s.log, key, mark, size)
    ensures var s' := Apply(s, Take(other, now), size, max);
            Explains(s'.storage, s'.log, key, mark, size)
  {
    var s' := Apply(s, Take(other, now), size, max);
    if s'.log != s.log && key in s.storage {
      OtherKey(s.log, Admit(other, now), key, s.storage[key].window, size);
      OtherKey(s.log, Admit(other, now), key, s.storage[key].window - 1, size);
    }
  }

  lemma SweepExplains(s: State, at: int, size: int, max: int, key: string, mark: int)
    requires size > 0 && Explains(s.storage, s.log, key, mark, size)
    ensures var s' := Apply(s, Sweep(at), size, max);
            Explains(s'.storage, s'.log, key, if at / size > mark then at / size else mark, size)
  {
  }

  lemma {:induction false} RunExplains(events: seq<Event>, key: string, size: int, max: int)
    requires size > 0 && InOrder(events, key, size)
    ensures Explains(Run(events, size, max).storage, Run(events, size, max).log, key, Mark(events, key, size), size)
  {
    if events != [] {
      var front, e := events[..|events| - 1], events[|events| - 1];
      var s, mark := Run(front, size, max), Mark(front, key, size);
      RunExplains(front, key, size, max);
      match e
      case Take(k, now) =>
        if k == key {
          TakeExplains(s, key, mark, now, size, max);
        } else {
          OtherExplains(s, k, now, size, max, key, mark);
        }
      case Sweep(at) => SweepExplains(s, at, size, max, key, mark);
    }
  }

  // ----- main results

  /** Two counters and a janitor decide like the full log: every Take of every run that enters the lock no
      earlier, by windows, than the key stands at; whatever other keys do and whatever is swept when. */
  lemma DecidesLikeTheLog(events: seq<Event>, key: string, now: int, size: int, max: int)
    requires size > 0 && InOrder(events + [Take(key, now)], key, size)
    ensures Taken(Run(events, size, max).storage, key, now, size, max).1
       <==> Ideal(Run(events, size, max).log, key, now, size, max)
  {
    InOrderNext(events, Take(key, now), key, size);
    RunExplains(events, key, size, max);
    TakeIsIdeal(Run(events, size, max), key, Mark(events, key, size), now, size, max);
  }

  /** The window of the key's last Take; -1 when there was none. */
  function LastWindow(events: seq<Event>, key: string, size: int): int
    requires size > 0
  {
    if events == [] then -1
    else
      var e := events[|events| - 1];
      if e.Take? && e.key == key then e.now / size else LastWindow(events[..|events| - 1], key, size)
  }

  lemma {:induction false} ItemWindow(events: seq<Event>, key: string, size: int, max: int)
    requires size > 0 && key in Run(events, size, max).storage
    ensures Run(events, size, max).storage[key].window == LastWindow(events, key, size)
  {
    if events != [] {
      var front, e := events[..|events| - 1], events[|events| - 1];
      if !(e.Take? && e.key == key) {
        ItemWindow(front, key, size, max);
      }
    }
  }

  /** A sweep drops exactly the keys without a Take in its window or the one before. */
  lemma SweepDropsIff(events: seq<Event>, at: int, key: string, size: int, max: int)
    requires size > 0 && key in Run(events, size, max).storage
    ensures key in Run(events + [Sweep(at)], size, max).storage <==> LastWindow(events, key, size) >= at / size - 1
  {
    RunNext(events, Sweep(at), size, max);
    ItemWindow(events, key, size, max);
  }

  function TakesOnly(events: seq<Event>): (r: seq<Event>)
    ensures forall i :: 0 <= i < |r| ==> r[i].Take? && r[i] in events
  {
    if events == [] then []
    else
      var front := TakesOnly(events[..|events| - 1]);
      if events[|events| - 1].Take? then front + [events[|events| - 1]] else front
  }

  lemma {:induction false} TakesOnlyInOrder(events: seq<Event>, key: string, size: int)
    requires size > 0 && InOrder(events, key, size)
    ensures InOrder(TakesOnly(events), key, size) && Mark(TakesOnly(events), key, size) <= Mark(events, key, size)
  {
    if events != [] {
      var front, e := events[..|events| - 1], events[|events| - 1];
      TakesOnlyInOrder(front, key, size);
      InOrderNext(TakesOnly(front), e, key, size);
    }
  }

  ghost predicate AllInOrder(events: seq<Event>, size: int)
    requires size > 0
  {
    forall key :: InOrder(events, key, size)
  }

  /** Sweeps interleaved anywhere change no decision: the admissions are those of the run without them. */
  lemma {:induction false} SweepsAreInvisible(events: seq<Event>, size: int, max: int)
    requires size > 0 && AllInOrder(events, size)
    ensures Run(events, size, max).log == Run(TakesOnly(events), size, max).log
  {
    if events != [] {
      var front, e := events[..|events| - 1], events[|events| - 1];
      assert events == front + [e];
      forall key
        ensures InOrder(front, key, size)
      {
        assert InOrder(events, key, size);
        InOrderNext(front, e, key, size);
      }
      SweepsAreInvisible(front, size, max);
      if e.Take? {
        SameDecision(front, e.key, e.now, size, max);
        RunNext(front, e, size, max);
        RunNext(TakesOnly(front), e, size, max);
      }
    }
  }

  lemma SameDecision(events: seq<Event>, key: string, now: int, size: int, max: int)
    requires size > 0 && InOrder(events + [Take(key, now)], key, size)
    requires Run(events, size, max).log == Run(TakesOnly(events), size, max).log
    ensures Taken(Run(events, size, max).storage, key, now, size, max).1
       <==> Taken(Run(TakesOnly(events), size, max).storage, key, now, size, max).1
  {
    InOrderNext(events, Take(key, now), key, size);
    TakesOnlyInOrder(events, key, size);
    InOrderNext(TakesOnly(events), Take(key, now), key, size);
    DecidesLikeTheLog(events, key, now, size, max);
    DecidesLikeTheLog(TakesOnly(events), key, now, size, max);
  }

  // ----- what the log can look like

  /** Every admission of the key was ideal when it was made, and its windows do not step back. */
  ghost predicate Justified(log: seq<Admit>, key: string, size: int, max: int)
    requires size > 0
  {
    && (forall i :: 0 <= i < |log| && log[i].key == key ==> Ideal(log[..i], key, log[i].time, size, max))
    && (forall i, j :: 0 <= i < j < |log| && log[i].key == key && log[j].key == key ==>
          log[i].time / size <= log[j].time / size)
  }

  lemma JustifiedNext(log: seq<Admit>, a: Admit, key: string, size: int, max: int)
    requires size > 0 && Justified(log, key, size, max)
    requires a.key == key ==> Ideal(log, key, a.time, size, max) && QuietFrom(log, key, a.time / size + 1, size)
    ensures Justified(log + [a], key, size, max)
  {
    var log' := log + [a];
    assert log'[..|log|] == log;
    forall i | 0 <= i < |log|
      ensures log'[..i] == log[..i]
    {
    }
  }

  lemma {:induction false} LogsAreJustified(events: seq<Event>, key: string, size: int, max: int)
    requires size > 0 && InOrder(events, key, size)
    ensures Justified(Run(events, size, max).log, key, size, max)
  {
    if events != [] {
      var front, e := events[..|events| - 1], events[|events| - 1];
      var s := Run(front, size, max);
      assert events == front + [e];
      LogsAreJustified(front, key, size, max);
      if Run(events, size, max).log != s.log {
        if e.key == key {
          RunExplains(front, key, size, max);
          RolledExplains(s.storage, s.log, key, Mark(front, key, size), e.now, size);
        }
        JustifiedNext(s.log, Admit(e.key, e.now), key, size, max);
      }
    }
  }

  /** An aligned window admits at most the maximum. */
  lemma {:induction false} AlignedWindowCap(log: seq<Admit>, key: string, w: int, size: int, max: int)
    requires size > 0 && Justified(log, key, size, max)
    ensures Count(log, key, w, size) <= if max > 0 then max else 0
  {
    if log != [] {
      var front, a := log[..|log| - 1], log[|log| - 1];
      Shorter(log, key, size, max);
      AlignedWindowCap(front, key, w, size, max);
      if a.key == key && a.time / size == w {
        FitsBounds(max, Count(front, key, w - 1, size), Count(front, key, w, size), a.time, size);
      }
    }
  }

  /** The current count alone stays below the maximum. */
  lemma FitsBounds(max: int, prev: nat, curr: nat, now: int, size: int)
    requires size > 0 && Fits(max, prev, curr, now, size)
    ensures curr + 1 <= max
  {
    assert prev as real * (1.0 - Elapsed(now, size)) >= 0.0;
  }

  /** The key's admissions in the half-open interval [a, b). */
  function CountIn(log: seq<Admit>, key: string, a: int, b: int): nat {
    if log == [] then 0
    else
      var e := log[|log| - 1];
      CountIn(log[..|log| - 1], key, a, b) + (if e.key == key && a <= e.time < b then 1 else 0)
  }

  lemma OneOrTwo(a: int, t: int, size: int)
    requires size > 0 && a <= t < a + size
    ensures a / size <= t / size <= a / size + 1
  {
    DivGrows(a, t, size);
    DivGrows(t, a + size, size);
    DivNext(a, size);
  }

  /** An interval of one window's length meets at most two aligned windows. */
  lemma {:induction false} IntervalMeetsTwo(log: seq<Admit>, key: string, a: int, size: int)
    requires size > 0
    ensures CountIn(log, key, a, a + size) <= Count(log, key, a / size, size) + Count(log, key, a / size + 1, size)
  {
    if log != [] {
      IntervalMeetsTwo(log[..|log| - 1], key, a, size);
      var t := log[|log| - 1].time;
      if a <= t < a + size {
        OneOrTwo(a, t, size);
      }
    }
  }

  /** An interval all of whose admissions so far precede the second window holds only admissions of the first. */
  lemma {:induction false} IntervalMeetsOne(log: seq<Admit>, key: string, a: int, size: int)
    requires size > 0
    requires forall i :: 0 <= i < |log| && log[i].key == key ==> log[i].time / size <= a / size
    ensures CountIn(log, key, a, a + size) <= Count(log, key, a / size, size)
  {
    if log != [] {
      IntervalMeetsOne(log[..|log| - 1], key, a, size);
      var t := log[|log| - 1].time;
      if a <= t < a + size {
        DivGrows(a, t, size);
      }
    }
  }

  lemma IdealSays(log: seq<Admit>, key: string, now: int, size: int, max: int, p: nat, c: nat, f: real)
    requires size > 0 && Ideal(log, key, now, size, max) && f == Elapsed(now, size)
    requires p == Count(log, key, now / size - 1, size) && c == Count(log, key, now / size, size)
    ensures p as real * (1.0 - f) + c as real + 1.0 <= max as real
  {
  }

  lemma IntervalTotal(front: seq<Admit>, e: Admit, a: int, size: int, w: int, p: nat, c: nat, total: nat)
    requires size > 0 && w == a / size
    requires p == Count(front, e.key, w, size) && c == Count(front, e.key, w + 1, size)
    requires total == CountIn(front + [e], e.key, a, a + size)
    ensures total <= p + c + 1
  {
    assert (front + [e])[..|front|] == front;
    IntervalMeetsTwo(front, e.key, a, size);
  }

  /**
   The bound behind the next one.  When the latest admission of an interval lies in its second window, at
   offset fraction f, the interval holds at most max + prev*f admissions, prev being all of the first window's.
   */
  lemma LastAdmitBound(front: seq<Admit>, e: Admit, a: int, size: int, max: int, w: int, total: nat, p: nat, f: real)
    requires size > 0 && Ideal(front, e.key, e.time, size, max)
    requires w == a / size && e.time / size == w + 1 && f == Elapsed(e.time, size)
    requires total == CountIn(front + [e], e.key, a, a + size) && p == Count(front, e.key, w, size)
    ensures total as real <= max as real + p as real * f
  {
    var c := Count(front, e.key, w + 1, size);
    IdealSays(front, e.key, e.time, size, max, p, c, f);
    IntervalTotal(front, e, a, size, w, p, c, total);
    Blend(p, c, f, max, total);
  }

  lemma Blend(p: nat, c: nat, f: real, max: int, total: nat)
    requires p as real * (1.0 - f) + c as real + 1.0 <= max as real
    requires total <= p + c + 1
    ensures total as real <= max as real + p as real * f
  {
    assert p as real * (1.0 - f) == p as real - p as real * f;
  }

  lemma Shorter(log: seq<Admit>, key: string, size: int, max: int)
    requires size > 0 && Justified(log, key, size, max) && log != []
    ensures Justified(log[..|log| - 1], key, size, max)
    ensures log[|log| - 1].key == key ==> Ideal(log[..|log| - 1], key, log[|log| - 1].time, size, max)
  {
    var front := log[..|log| - 1];
    forall i | 0 <= i < |front|
      ensures front[..i] == log[..i]
    {
    }
  }

  /** An interval whose latest admission to enter the lock is the log's last. */
  lemma EndingHere(log: seq<Admit>, key: string, a: int, size: int, max: int)
    requires size > 0 && Justified(log, key, size, max) && max >= 1 && log != []
    requires log[|log| - 1].key == key && a <= log[|log| - 1].time < a + size
    ensures CountIn(log, key, a, a + size) < 2 * max
  {
    var front, e, w := log[..|log| - 1], log[|log| - 1], a / size;
    Shorter(log, key, size, max);
    OneOrTwo(a, e.time, size);
    if e.time / size == w {
      AlignedWindowCap(log, key, w, size, max);
      IntervalMeetsOne(log, key, a, size);
    } else {
      AlignedWindowCap(front, key, w, size, max);
      assert front + [e] == log;
      var p := Count(front, key, w, size);
      var f := Elapsed(e.time, size);
      LastAdmitBound(front, e, a, size, max, w, CountIn(log, key, a, a + size), p, f);
      StrictShare(p, max, f);
    }
  }

  /** Any interval of one window's length admits fewer than twice the maximum. */
  lemma {:induction false} FewerThanTwice(log: seq<Admit>, key: string, a: int, size: int, max: int)
    requires size > 0 && Justified(log, key, size, max) && max >= 1
    ensures CountIn(log, key, a, a + size) < 2 * max
  {
    if log != [] {
      var e := log[|log| - 1];
      if e.key == key && a <= e.time < a + size {
        EndingHere(log, key, a, size, max);
      } else {
        Shorter(log, key, size, max);
        FewerThanTwice(log[..|log| - 1], key, a, size, max);
      }
    }
  }

  lemma StrictShare(p: nat, max: int, f: real)
    requires p <= max && max >= 1 && 0.0 <= f < 1.0
    ensures p as real * f < max as real
  {
    if p >= 1 {
      assert p as real * f < p as real * 1.0;
    }
  }

  /** The two bounds, for every run in which the key's readings enter the lock in the order of their windows. */
  lemma RunsAreLimited(events: seq<Event>, key: string, size: int, max: int, w: int, a: int)
    requires size > 0 && InOrder(events, key, size) && max >= 1
    ensures Count(Run(events, size, max).log, key, w, size) <= max
    ensures CountIn(Run(events, size, max).log, key, a, a + size) < 2 * max
  {
    LogsAreJustified(events, key, size, max);
    AlignedWindowCap(Run(events, size, max).log, key, w, size, max);
    FewerThanTwice(Run(events, size, max).log, key, a, size, max);
  }
}
