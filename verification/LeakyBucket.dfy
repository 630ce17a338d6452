/**
 The leaky bucket as an interleaving of its critical sections: requests that are admitted at once,
 dropped or put to sleep, sleepers that wake (never early, maybe late, in any order), and sweeps
 of the janitor.  Items live behind pointers: a sleeper keeps the pointer it took, whatever the
 map holds when it wakes.
 */
module LeakyBucket {
  import opened Arithmetic

  datatype Item = Item(last: int, count: int)

  /** An admission: decided at `now`, due at `at`. */
  datatype Sched = Sched(key: string, now: int, at: int)

  /** `sleepers[key]` maps the instant a request sleeps until to the item it points to. */
  datatype State = State(storage: map<string, nat>, items: seq<Item>,
                         sleepers: map<string, map<int, nat>>, log: seq<Sched>)

  datatype Config = Config(per: int, size: int)

  datatype Event = Take(key: string, now: int) | Wake(key: string, due: int, now: int) | Sweep(at: int, maxAge: int)

  datatype Decision = Admit | Drop | Wait(until: int)

  /** What Take decides from an item that has been used before. */
  function Decide(c: Config, t: Item, now: int): Decision {
    var next := t.last + c.per;
    if next - now <= 0 then Admit
    else if t.count >= c.size then Drop
    else Wait(next)
  }

  function Asleep(s: State, key: string): map<int, nat> {
    if key in s.sleepers then s.sleepers[key] else map[]
  }

  function Took(c: Config, s: State, key: string, now: int): State {
    if key !in s.storage || s.storage[key] >= |s.items| then
      s.(storage := s.storage[key := |s.items|], items := s.items + [Item(now, 0)],
         log := s.log + [Sched(key, now, now)])
    else
      var id := s.storage[key];
      var t := s.items[id];
      match Decide(c, t, now)
      case Admit => s.(items := s.items[id := t.(last := now)], log := s.log + [Sched(key, now, now)])
      case Drop => s
      case Wait(next) =>
        s.(items := s.items[id := Item(next, t.count + 1)],
           sleepers := s.sleepers[key := Asleep(s, key)[next := id]],
           log := s.log + [Sched(key, now, next)])
  }

  /** The sleeper comes back and leaves the queue of the item it has been holding on to. */
  function Woke(s: State, key: string, due: int): State {
    if due !in Asleep(s, key) || Asleep(s, key)[due] >= |s.items| then s
    else
      var id := Asleep(s, key)[due];
      s.(items := s.items[id := s.items[id].(count := s.items[id].count - 1)],
         sleepers := s.sleepers[key := Asleep(s, key) - {due}])
  }

  predicate Idle(t: Item, deleteBefore: int) {
    t.count <= 0 && t.last < deleteBefore
  }

  function Swept(s: State, deleteBefore: int): State {
    s.(storage := map k | k in s.storage
                          && (s.storage[k] >= |s.items| || !Idle(s.items[s.storage[k]], deleteBefore)) :: s.storage[k])
  }

  function Apply(c: Config, s: State, e: Event): State {
    match e
    case Take(key, now) => Took(c, s, key, now)
    case Wake(key, due, now) => if due <= now then Woke(s, key, due) else s
    case Sweep(at, maxAge) => Swept(s, at - maxAge)
  }

  function Run(c: Config, events: seq<Event>): State {
    if events == [] then State(map[], [], map[], [])
    else Apply(c, Run(c, events[..|events| - 1]), events[|events| - 1])
  }

  function Stamp(e: Event): int {
    if e.Sweep? then e.at else e.now
  }

  /** Takes and wake-ups read a clock that never steps back; a sweep may act on an older reading. */
  ghost predicate Ordered(events: seq<Event>) {
    && (forall i :: 0 <= i < |events| ==> Stamp(events[i]) >= 0)
    && (forall i, j :: 0 <= i < j < |events| && !events[j].Sweep? ==> Stamp(events[i]) <= events[j].now)
  }

  const MINUTE := 60 * SECOND

  /** The sweep interval doubles as the idle age; the default leaves a second beyond the request spacing,
      unless adding that second overflows. */
  function Cadence(per: int, sweepEvery: int): (every: int)
    requires -INT64 <= per < INT64
    ensures sweepEvery <= 0 ==> every >= MINUTE && (per < INT64 - SECOND ==> every >= per + SECOND)
  {
    if sweepEvery > 0 then sweepEvery
    else if Wrap(per + SECOND) < MINUTE then MINUTE else Wrap(per + SECOND)
  }

  /** Every sweep of the run leaves items alone for at least `per` nanoseconds. */
  ghost predicate Patient(events: seq<Event>, per: int) {
    forall i :: 0 <= i < |events| && events[i].Sweep? ==> per <= events[i].maxAge + 1
  }

  // ----- the chain of instants still ahead

  /** Every instant last, last-per, last-2*per, ... that lies after `time` has a sleeper. */
  ghost predicate Chain(last: int, due: set<int>, time: int, per: int)
    decreases last - time
  {
    last <= time || (per > 0 && last in due && Chain(last - per, due, time, per))
  }

  lemma {:induction false} ChainLater(last: int, due: set<int>, time: int, time': int, per: int)
    requires Chain(last, due, time, per) && time <= time'
    ensures Chain(last, due, time', per)
    decreases last - time
  {
    if last > time' {
      ChainLater(last - per, due, time, time', per);
    }
  }

  lemma {:induction false} ChainMore(last: int, due: set<int>, more: set<int>, time: int, per: int)
    requires Chain(last, due, time, per) && due <= more
    ensures Chain(last, more, time, per)
    decreases last - time
  {
    if last > time {
      ChainMore(last - per, due, more, time, per);
    }
  }

  /** Whoever has woken is not part of it. */
  lemma {:induction false} ChainWithout(last: int, due: set<int>, gone: int, time: int, per: int)
    requires Chain(last, due, time, per) && (gone <= time || gone > last)
    ensures Chain(last, due - {gone}, time, per)
    decreases last - time
  {
    if last > time {
      ChainWithout(last - per, due, gone, time, per);
    }
  }

  /** So the backlog is at most one spacing per sleeper. */
  lemma {:induction false} ChainBounds(last: int, due: set<int>, time: int, per: int)
    requires Chain(last, due, time, per) && per >= 0
    ensures last - time <= |due| * per
    decreases last - time
  {
    if last > time {
      ChainWithout(last - per, due, last, time, per);
      ChainBounds(last - per, due - {last}, time, per);
      assert |due - {last}| + 1 == |due|;
      OneMore(|due - {last}|, per);
    } else {
      assert |due| * per >= 0;
    }
  }

  // ----- the invariant

  ghost predicate NotAfter(log: seq<Sched>, key: string, bound: int) {
    forall i :: 0 <= i < |log| && log[i].key == key ==> log[i].at <= bound
  }

  /** A key in store: its queue is exactly its sleepers, all pointing at its item. */
  ghost predicate Queued(c: Config, s: State, key: string)
    requires key in s.storage
  {
    var id := s.storage[key];
    && id < |s.items|
    && s.items[id].count == |Asleep(s, key)|
    && (s.items[id].count == 0 || s.items[id].count <= c.size)
    && (forall d :: d in Asleep(s, key) ==> Asleep(s, key)[d] == id && d <= s.items[id].last)
    && NotAfter(s.log, key, s.items[id].last)
  }

  ghost predicate Live(c: Config, s: State, key: string, time: int)
    requires key in s.storage
  {
    Queued(c, s, key) && Chain(s.items[s.storage[key]].last, Asleep(s, key).Keys, time, c.per)
  }

  /** A key not in store: nobody sleeps for it, and its last admission is at least one spacing ago. */
  ghost predicate Absent(c: Config, s: State, key: string, time: int) {
    Asleep(s, key) == map[] && NotAfter(s.log, key, time - c.per)
  }

  ghost predicate Holds(c: Config, s: State, key: string, time: int) {
    if key in s.storage then Live(c, s, key, time) else Absent(c, s, key, time)
  }

  ghost predicate Distinct(s: State) {
    forall j, k :: j in s.storage && k in s.storage && s.storage[j] == s.storage[k] ==> j == k
  }

  ghost predicate Spaced(c: Config, log: seq<Sched>) {
    forall i, j :: 0 <= i < j < |log| && log[i].key == log[j].key ==> log[j].at >= log[i].at + c.per
  }

  ghost predicate Brief(c: Config, log: seq<Sched>) {
    forall i :: 0 <= i < |log| ==>
      log[i].now <= log[i].at && (log[i].at > log[i].now ==> log[i].at - log[i].now <= c.size * c.per)
  }

  ghost predicate Inv(c: Config, s: State, time: int) {
    && Distinct(s) && Spaced(c, s.log) && Brief(c, s.log)
    && (forall key :: Holds(c, s, key, time))
    && (forall key :: key in s.storage ==> s.storage[key] < |s.items|)
  }

  lemma HoldsLater(c: Config, s: State, key: string, time: int, time': int)
    requires Holds(c, s, key, time) && time <= time'
    ensures Holds(c, s, key, time')
  {
    if key in s.storage {
      ChainLater(s.items[s.storage[key]].last, Asleep(s, key).Keys, time, time', c.per);
    }
  }

  /** A step on one key leaves the others as they were. */
  lemma OthersHold(c: Config, s: State, s': State, key: string, time: int, time': int)
    requires Holds(c, s, key, time) && time <= time'
    requires key in s.storage <==> key in s'.storage
    requires key in s.storage ==>
               && s.storage[key] == s'.storage[key] < |s.items| <= |s'.items|
               && s.items[s.storage[key]] == s'.items[s.storage[key]]
    requires Asleep(s, key) == Asleep(s', key)
    requires forall b :: NotAfter(s.log, key, b) ==> NotAfter(s'.log, key, b)
    ensures Holds(c, s', key, time')
  {
    HoldsLater(c, s, key, time, time');
  }

  lemma TookNew(c: Config, s: State, key: string, time: int, now: int)
    requires Inv(c, s, time) && time <= now && c.per >= 0 && key !in s.storage
    ensures Inv(c, Took(c, s, key, now), now)
  {
    var s' := Took(c, s, key, now);
    assert Holds(c, s, key, time);
    forall k
      ensures Holds(c, s', k, now)
    {
      if k != key {
        OthersHold(c, s, s', k, time, now);
      }
    }
  }

  lemma TookNow(c: Config, s: State, key: string, time: int, now: int)
    requires Inv(c, s, time) && time <= now && c.per >= 0
    requires key in s.storage && Decide(c, s.items[s.storage[key]], now) == Admit
    ensures Inv(c, Took(c, s, key, now), now)
  {
    var s' := Took(c, s, key, now);
    assert Holds(c, s, key, time);
    forall k
      ensures Holds(c, s', k, now)
    {
      if k != key {
        assert Holds(c, s, k, time);
        OthersHold(c, s, s', k, time, now);
      }
    }
  }

  /** The wait of a request that joins a queue of `n`: one spacing each for those ahead, and one more. */
  lemma WaitBound(c: Config, n: int, last: int, now: int)
    requires last - now <= n * c.per && n < c.size && c.per >= 0
    ensures last + c.per - now <= c.size * c.per
  {
    OneMore(n, c.per);
    assert (c.size - (n + 1)) * c.per >= 0;
  }

  lemma LogNext(c: Config, log: seq<Sched>, e: Sched)
    requires Spaced(c, log) && Brief(c, log) && NotAfter(log, e.key, e.at - c.per)
    requires e.now <= e.at && (e.at > e.now ==> e.at - e.now <= c.size * c.per)
    ensures Spaced(c, log + [e]) && Brief(c, log + [e])
  {
  }

  lemma ChainNext(last: int, due: set<int>, next: int, now: int, per: int)
    requires Chain(last, due, now, per) && per >= 0 && next == last + per && next > now
    ensures per > 0 && Chain(next, due + {next}, now, per)
  {
    ChainMore(last, due, due + {next}, now, per);
  }

  lemma QueueWait(c: Config, last: int, due: set<int>, now: int)
    requires Chain(last, due, now, c.per) && c.per >= 0 && |due| < c.size
    ensures last + c.per - now <= c.size * c.per
  {
    ChainBounds(last, due, now, c.per);
    WaitBound(c, |due|, last, now);
  }

  /** The key whose request was put to sleep: its queue. */
  lemma WaitQueued(c: Config, s: State, key: string, now: int)
    requires key in s.storage && Queued(c, s, key) && c.per > 0
    requires Decide(c, s.items[s.storage[key]], now).Wait?
    ensures Queued(c, Took(c, s, key, now), key)
  {
    var s', t := Took(c, s, key, now), s.items[s.storage[key]];
    assert Asleep(s', key) == Asleep(s, key)[t.last + c.per := s.storage[key]];
    assert t.last + c.per !in Asleep(s, key);
  }

  lemma WaitLive(c: Config, s: State, key: string, now: int, t: Item, due: set<int>)
    requires key in s.storage && Queued(c, s, key) && c.per >= 0
    requires t == s.items[s.storage[key]] && due == Asleep(s, key).Keys && Chain(t.last, due, now, c.per)
    requires Decide(c, t, now).Wait?
    ensures Live(c, Took(c, s, key, now), key, now)
  {
    var next := t.last + c.per;
    ChainNext(t.last, due, next, now, c.per);
    WaitQueued(c, s, key, now);
    assert Asleep(Took(c, s, key, now), key).Keys == due + {next};
  }

  lemma TookWait(c: Config, s: State, key: string, time: int, now: int)
    requires Inv(c, s, time) && time <= now && c.per >= 0
    requires key in s.storage && Decide(c, s.items[s.storage[key]], now).Wait?
    ensures Inv(c, Took(c, s, key, now), now)
  {
    var s', t := Took(c, s, key, now), s.items[s.storage[key]];
    HoldsLater(c, s, key, time, now);
    WaitLive(c, s, key, now, t, Asleep(s, key).Keys);
    QueueWait(c, t.last, Asleep(s, key).Keys, now);
    LogNext(c, s.log, Sched(key, now, t.last + c.per));
    forall k
      ensures Holds(c, s', k, now)
    {
      if k != key {
        assert Holds(c, s, k, time);
        OthersHold(c, s, s', k, time, now);
      }
    }
  }

  lemma WokeKeeps(c: Config, s: State, key: string, due: int, time: int, now: int)
    requires Inv(c, s, time) && time <= now && due <= now
    ensures Inv(c, Woke(s, key, due), now)
  {
    var s' := Woke(s, key, due);
    HoldsLater(c, s, key, time, now);
    forall k
      ensures Holds(c, s', k, now)
    {
      if k != key || s' == s {
        assert Holds(c, s, k, time);
        OthersHold(c, s, s', k, time, now);
      } else {
        assert Asleep(s', key).Keys == Asleep(s, key).Keys - {due};
        ChainWithout(s.items[s.storage[key]].last, Asleep(s, key).Keys, due, now, c.per);
      }
    }
  }

  lemma SweptKeeps(c: Config, s: State, at: int, maxAge: int, time: int, time': int)
    requires Inv(c, s, time) && time <= time' && at <= time' && c.per <= maxAge + 1
    ensures Inv(c, Swept(s, at - maxAge), time')
  {
    var s' := Swept(s, at - maxAge);
    forall k
      ensures Holds(c, s', k, time')
    {
      assert Holds(c, s, k, time);
      if k in s.storage && k !in s'.storage {
        assert |Asleep(s, k)| == 0;
      } else {
        OthersHold(c, s, s', k, time, time');
      }
    }
  }

  function Latest(events: seq<Event>): (m: int)
    ensures m >= 0
    ensures forall i :: 0 <= i < |events| ==> Stamp(events[i]) <= m
    ensures m == 0 || exists i :: 0 <= i < |events| && Stamp(events[i]) == m
  {
    if events == [] then 0
    else
      var m := Latest(events[..|events| - 1]);
      var x := Stamp(events[|events| - 1]);
      if x > m then
        assert Stamp(events[|events| - 1]) == x;
        x
      else m
  }

  lemma TookKeeps(c: Config, s: State, key: string, time: int, now: int)
    requires Inv(c, s, time) && time <= now && c.per >= 0
    ensures Inv(c, Took(c, s, key, now), now)
  {
    if key !in s.storage {
      TookNew(c, s, key, time, now);
    } else {
      match Decide(c, s.items[s.storage[key]], now)
      case Admit => TookNow(c, s, key, time, now);
      case Drop => Idling(c, s, time, now);
      case Wait(_) => TookWait(c, s, key, time, now);
    }
  }

  lemma ApplyKeeps(c: Config, s: State, e: Event, time: int, time': int)
    requires Inv(c, s, time) && c.per >= 0 && time <= time' && Stamp(e) <= time'
    requires !e.Sweep? ==> e.now == time'
    requires e.Sweep? ==> c.per <= e.maxAge + 1
    ensures Inv(c, Apply(c, s, e), time')
  {
    match e
    case Take(key, now) => TookKeeps(c, s, key, time, now);
    case Wake(key, due, now) =>
      if due <= now {
        WokeKeeps(c, s, key, due, time, now);
      } else {
        Idling(c, s, time, now);
      }
    case Sweep(at, maxAge) => SweptKeeps(c, s, at, maxAge, time, time');
  }

  lemma Idling(c: Config, s: State, time: int, time': int)
    requires Inv(c, s, time) && time <= time'
    ensures Inv(c, s, time')
  {
    forall k
      ensures Holds(c, s, k, time')
    {
      HoldsLater(c, s, k, time, time');
    }
  }

  lemma {:induction false} RunKeeps(c: Config, events: seq<Event>)
    requires c.per >= 0 && Ordered(events) && Patient(events, c.per)
    ensures Inv(c, Run(c, events), Latest(events))
  {
    if events != [] {
      var front, e := events[..|events| - 1], events[|events| - 1];
      RunKeeps(c, front);
      ApplyKeeps(c, Run(c, front), e, Latest(front), Latest(events));
    }
  }

  // ----- main results

  /** Scheduled admissions of a key are at least one spacing apart, and nobody waits longer than a full queue. */
  lemma AdmissionsSpaced(c: Config, events: seq<Event>)
    requires c.per >= 0 && Ordered(events) && Patient(events, c.per)
    ensures Spaced(c, Run(c, events).log) && Brief(c, Run(c, events).log)
  {
    RunKeeps(c, events);
  }

  /** The queue count is the number of sleepers, within the queue size; a sleeper's item is still the key's. */
  lemma QueueIsItsSleepers(c: Config, events: seq<Event>, key: string)
    requires c.per >= 0 && Ordered(events) && Patient(events, c.per)
    ensures var s := Run(c, events);
            && (key !in s.storage ==> Asleep(s, key) == map[])
            && (key in s.storage ==>
                  && s.storage[key] < |s.items|
                  && s.items[s.storage[key]].count == |Asleep(s, key)|
                  && (s.items[s.storage[key]].count == 0 || s.items[s.storage[key]].count <= c.size)
                  && forall d :: d in Asleep(s, key) ==> Asleep(s, key)[d] == s.storage[key])
  {
    RunKeeps(c, events);
    assert Holds(c, Run(c, events), key, Latest(events));
  }

  /** When the key was last scheduled, if ever. */
  datatype When = Never | Last(at: int)

  function LastOf(log: seq<Sched>, key: string): When {
    if log == [] then Never
    else if log[|log| - 1].key == key then Last(log[|log| - 1].at)
    else LastOf(log[..|log| - 1], key)
  }

  lemma LastNext(log: seq<Sched>, e: Sched, key: string)
    ensures LastOf(log + [e], key) == if e.key == key then Last(e.at) else LastOf(log, key)
  {
    assert (log + [e])[..|log|] == log;
  }

  /** Keys have items of their own, and an item's Last is the key's latest scheduled admission. */
  ghost predicate Tracked(s: State) {
    && Distinct(s)
    && (forall k :: k in s.storage ==> s.storage[k] < |s.items| && LastOf(s.log, k) == Last(s.items[s.storage[k]].last))
  }

  lemma TookLast(c: Config, s: State, key: string, now: int, k: string)
    requires Tracked(s) && k in Took(c, s, key, now).storage
    ensures var s' := Took(c, s, key, now);
            s'.storage[k] < |s'.items| && LastOf(s'.log, k) == Last(s'.items[s'.storage[k]].last)
  {
    var s' := Took(c, s, key, now);
    if key !in s.storage {
      LastNext(s.log, Sched(key, now, now), k);
    } else {
      match Decide(c, s.items[s.storage[key]], now)
      case Admit => LastNext(s.log, Sched(key, now, now), k);
      case Drop =>
      case Wait(next) => LastNext(s.log, Sched(key, now, next), k);
    }
  }

  lemma TookTracked(c: Config, s: State, key: string, now: int)
    requires Tracked(s)
    ensures Tracked(Took(c, s, key, now))
  {
    var s' := Took(c, s, key, now);
    forall k | k in s'.storage
      ensures s'.storage[k] < |s'.items| && LastOf(s'.log, k) == Last(s'.items[s'.storage[k]].last)
    {
      TookLast(c, s, key, now, k);
    }
    assert s'.storage == s.storage || s'.storage == s.storage[key := |s.items|];
  }

  lemma ApplyTracked(c: Config, s: State, e: Event)
    requires Tracked(s)
    ensures Tracked(Apply(c, s, e))
  {
    if e.Take? {
      TookTracked(c, s, e.key, e.now);
    }
  }

  lemma {:induction false} RunTracked(c: Config, events: seq<Event>)
    ensures Tracked(Run(c, events))
  {
    if events != [] {
      RunTracked(c, events[..|events| - 1]);
      ApplyTracked(c, Run(c, events[..|events| - 1]), events[|events| - 1]);
    }
  }

  lemma {:induction false} LastBounded(log: seq<Sched>, key: string, bound: int)
    requires NotAfter(log, key, bound)
    ensures LastOf(log, key).Last? ==> LastOf(log, key).at <= bound
  {
    if log != [] && log[|log| - 1].key != key {
      LastBounded(log[..|log| - 1], key, bound);
    }
  }

  /** What a Take does, told from the log and the sleepers alone: admitted at once when the key was never
      scheduled or its last turn is a spacing ago, dropped when the turn is not yet and Size already sleep,
      and otherwise scheduled one spacing after the last turn. */
  ghost predicate ByTheLog(c: Config, s: State, s': State, key: string, now: int) {
    var last := LastOf(s.log, key);
    if last.Never? || now >= last.at + c.per then s'.log == s.log + [Sched(key, now, now)]
    else if |Asleep(s, key)| >= c.size then s' == s
    else
      && s'.log == s.log + [Sched(key, now, last.at + c.per)]
      && Asleep(s', key).Keys == Asleep(s, key).Keys + {last.at + c.per}
  }

  lemma TookStored(c: Config, s: State, s': State, key: string, now: int, last: int)
    requires key in s.storage && s.storage[key] < |s.items| && s' == Took(c, s, key, now)
    requires s.items[s.storage[key]].last == last && |Asleep(s, key)| == s.items[s.storage[key]].count
    ensures now >= last + c.per ==> s'.log == s.log + [Sched(key, now, now)]
    ensures now < last + c.per && |Asleep(s, key)| >= c.size ==> s' == s
    ensures now < last + c.per && |Asleep(s, key)| < c.size ==>
              && s'.log == s.log + [Sched(key, now, last + c.per)]
              && Asleep(s', key).Keys == Asleep(s, key).Keys + {last + c.per}
  {
    if now < last + c.per && |Asleep(s, key)| < c.size {
      assert Asleep(s', key) == Asleep(s, key)[last + c.per := s.storage[key]];
    }
  }

  lemma StoredByTheLog(c: Config, s: State, key: string, now: int)
    requires key in s.storage && s.storage[key] < |s.items|
    requires var t := s.items[s.storage[key]]; LastOf(s.log, key) == Last(t.last) && |Asleep(s, key)| == t.count
    ensures ByTheLog(c, s, Took(c, s, key, now), key, now)
  {
    TookStored(c, s, Took(c, s, key, now), key, now, s.items[s.storage[key]].last);
  }

  lemma QueueIsSleepers(c: Config, s: State, key: string, time: int)
    requires Holds(c, s, key, time) && key in s.storage
    ensures s.storage[key] < |s.items| && |Asleep(s, key)| == s.items[s.storage[key]].count
  {
  }

  lemma TookByTheLog(c: Config, s: State, key: string, time: int, now: int)
    requires Holds(c, s, key, time) && Tracked(s) && time <= now
    ensures ByTheLog(c, s, Took(c, s, key, now), key, now)
  {
    if key in s.storage {
      QueueIsSleepers(c, s, key, time);
      StoredByTheLog(c, s, key, now);
    } else {
      LastBounded(s.log, key, time - c.per);
    }
  }

  lemma TakeByTheLog(c: Config, events: seq<Event>, key: string, now: int)
    requires c.per >= 0 && Ordered(events + [Take(key, now)]) && Patient(events, c.per)
    ensures ByTheLog(c, Run(c, events), Run(c, events + [Take(key, now)]), key, now)
  {
    var all := events + [Take(key, now)];
    assert all[..|events|] == events && all[|events|] == Take(key, now);
    assert forall i :: 0 <= i < |events| ==> all[i] == events[i];
    assert Latest(events) <= now;
    RunKeeps(c, events);
    RunTracked(c, events);
    assert Holds(c, Run(c, events), key, Latest(events));
    TookByTheLog(c, Run(c, events), key, Latest(events), now);
  }

  /** A sweep drops exactly the keys nobody sleeps for whose last turn is older than the idle age. */
  lemma SweepDropsIff(c: Config, events: seq<Event>, at: int, maxAge: int, key: string)
    requires c.per >= 0 && Ordered(events) && Patient(events, c.per) && key in Run(c, events).storage
    ensures var s := Run(c, events);
            key in Apply(c, s, Sweep(at, maxAge)).storage
            <==> Asleep(s, key) != map[] || (LastOf(s.log, key).Last? && LastOf(s.log, key).at >= at - maxAge)
  {
    RunKeeps(c, events);
    RunTracked(c, events);
    assert Holds(c, Run(c, events), key, Latest(events));
  }

  /** The default sweep cadence is patient enough exactly while adding its second does not overflow. */
  lemma DefaultCadenceIsPatient(per: int)
    requires -INT64 <= per < INT64
    ensures per <= Cadence(per, 0) + 1 <==> per < INT64 - SECOND
  {
  }

  /** The run that exposes an impatient janitor. */
  function Hasty(maxAge: int): seq<Event> {
    [Take("k", 0), Sweep(maxAge + 1, maxAge), Take("k", maxAge + 1)]
  }

  lemma HastyRun(c: Config, maxAge: int)
    requires maxAge >= 0
    ensures Run(c, Hasty(maxAge)).log == [Sched("k", 0, 0), Sched("k", maxAge + 1, maxAge + 1)]
  {
    var es := Hasty(maxAge);
    var s1, s2 := Run(c, es[..1]), Run(c, es[..2]);
    assert es[..1][..0] == [] && es[..1][0] == es[0] && es[..2][..1] == es[..1];
    var s0 := Run(c, []);
    assert s1 == Apply(c, s0, es[0]);
    assert s1.items == [Item(0, 0)] && s1.storage == map["k" := 0] && s1.log == [Sched("k", 0, 0)];
    assert s2 == Swept(s1, 1) && s2.storage == map[];
  }

  ghost predicate SweepsAt(events: seq<Event>, maxAge: int) {
    forall i :: 0 <= i < |events| && events[i].Sweep? ==> events[i].maxAge == maxAge
  }

  ghost predicate AlwaysSpaced(c: Config, maxAge: int) {
    forall events :: Ordered(events) && SweepsAt(events, maxAge) ==> Spaced(c, Run(c, events).log)
  }

  /** Sweeping at idle age `maxAge` keeps every run spaced exactly when the spacing is at most `maxAge`
      and a nanosecond. */
  lemma SpacedIffPatient(c: Config, maxAge: int)
    requires c.per >= 0 && maxAge >= 0
    ensures AlwaysSpaced(c, maxAge) <==> c.per <= maxAge + 1
  {
    if c.per <= maxAge + 1 {
      forall events | Ordered(events) && SweepsAt(events, maxAge)
        ensures Spaced(c, Run(c, events).log)
      {
        RunKeeps(c, events);
      }
    } else {
      HastyRun(c, maxAge);
      var log := Run(c, Hasty(maxAge)).log;
      assert log[0].key == log[1].key && log[1].at < log[0].at + c.per;
      assert Ordered(Hasty(maxAge));
    }
  }

  /** So a limiter with the default janitor keeps its spacing in every run exactly for spacings more than
      a second below the largest duration. */
  lemma DefaultKeepsSpacing(c: Config)
    requires 0 <= c.per < INT64
    ensures AlwaysSpaced(c, Cadence(c.per, 0)) <==> c.per < INT64 - SECOND
  {
    SpacedIffPatient(c, Cadence(c.per, 0));
    DefaultCadenceIsPatient(c.per);
  }

  // ----- evicting an idle key changes nothing

  /** The item a key has, if any. */
  datatype Slot = None | Some(item: Item)

  function Look(s: State, key: string): Slot {
    if key in s.storage && s.storage[key] < |s.items| then Some(s.items[s.storage[key]]) else None
  }

  /** Two runs agree on a key; the first may have forgotten an item that would admit anyway. */
  ghost predicate Agree(c: Config, s: State, r: State, key: string, time: int) {
    && Asleep(s, key).Keys == Asleep(r, key).Keys
    && (Look(s, key) == Look(r, key)
        || (Look(s, key).None? && Look(r, key).item.count == 0 && Look(r, key).item.last + c.per <= time))
  }

  ghost predicate Twins(c: Config, s: State, r: State, time: int) {
    s.log == r.log && forall key :: Agree(c, s, r, key, time)
  }

  /** A step on `key` seen from another key, and from itself. */
  lemma TookElsewhere(c: Config, s: State, key: string, now: int, k: string, time: int)
    requires Inv(c, s, time) && k != key
    ensures Look(Took(c, s, key, now), k) == Look(s, k) && Asleep(Took(c, s, key, now), k) == Asleep(s, k)
  {
  }

  lemma TookHere(c: Config, s: State, key: string, now: int, time: int)
    requires Inv(c, s, time)
    ensures var s' := Took(c, s, key, now);
            match Look(s, key)
            case None =>
              && Look(s', key) == Some(Item(now, 0)) && Asleep(s', key) == Asleep(s, key)
              && s'.log == s.log + [Sched(key, now, now)]
            case Some(t) =>
              match Decide(c, t, now)
              case Admit =>
                && Look(s', key) == Some(Item(now, t.count)) && Asleep(s', key) == Asleep(s, key)
                && s'.log == s.log + [Sched(key, now, now)]
              case Drop => s' == s
              case Wait(next) => Look(s', key) == Some(Item(next, t.count + 1))
                                 && Asleep(s', key).Keys == Asleep(s, key).Keys + {next}
                                 && s'.log == s.log + [Sched(key, now, next)]
  {
  }

  lemma TwinsTake(c: Config, s: State, r: State, key: string, time: int, now: int)
    requires Inv(c, s, time) && Inv(c, r, time) && Twins(c, s, r, time) && time <= now
    ensures Twins(c, Took(c, s, key, now), Took(c, r, key, now), now)
  {
    assert Agree(c, s, r, key, time);
    TookHere(c, s, key, now, time);
    TookHere(c, r, key, now, time);
    forall k
      ensures Agree(c, Took(c, s, key, now), Took(c, r, key, now), k, now)
    {
      assert Agree(c, s, r, k, time);
      if k != key {
        TookElsewhere(c, s, key, now, k, time);
        TookElsewhere(c, r, key, now, k, time);
      }
    }
  }

  lemma WokeHere(c: Config, s: State, key: string, due: int, k: string, time: int)
    requires Inv(c, s, time)
    ensures var s' := Woke(s, key, due);
            && s'.log == s.log
            && Asleep(s', k).Keys == (if k == key then Asleep(s, k).Keys - {due} else Asleep(s, k).Keys)
            && Look(s', k) == (if k == key && due in Asleep(s, k) && Look(s, k).Some?
                               then Some(Look(s, k).item.(count := Look(s, k).item.count - 1)) else Look(s, k))
  {
    assert Holds(c, s, key, time) && Holds(c, s, k, time);
  }

  lemma TwinsWake(c: Config, s: State, r: State, key: string, due: int, time: int, now: int)
    requires Inv(c, s, time) && Inv(c, r, time) && Twins(c, s, r, time) && time <= now
    ensures Twins(c, Woke(s, key, due), Woke(r, key, due), now)
  {
    forall k
      ensures Agree(c, Woke(s, key, due), Woke(r, key, due), k, now)
    {
      assert Agree(c, s, r, k, time);
      assert Holds(c, s, k, time);
      WokeHere(c, s, key, due, k, time);
      WokeHere(c, r, key, due, k, time);
    }
    WokeHere(c, s, key, due, key, time);
    WokeHere(c, r, key, due, key, time);
  }

  lemma TwinsSweep(c: Config, s: State, r: State, at: int, maxAge: int, time: int, time': int)
    requires Inv(c, s, time) && Twins(c, s, r, time) && time <= time' && at <= time' && c.per <= maxAge + 1
    ensures Twins(c, Swept(s, at - maxAge), r, time')
  {
    var s' := Swept(s, at - maxAge);
    forall k
      ensures Agree(c, s', r, k, time')
    {
      assert Agree(c, s, r, k, time);
      assert Holds(c, s, k, time);
    }
  }

  function WithoutSweeps(events: seq<Event>): (r: seq<Event>)
    ensures forall i :: 0 <= i < |r| ==> !r[i].Sweep? && r[i] in events
  {
    if events == [] then []
    else
      var front := WithoutSweeps(events[..|events| - 1]);
      if events[|events| - 1].Sweep? then front else front + [events[|events| - 1]]
  }

  lemma TwinsLater(c: Config, s: State, r: State, time: int, time': int)
    requires Twins(c, s, r, time) && time <= time'
    ensures Twins(c, s, r, time')
  {
    forall k
      ensures Agree(c, s, r, k, time')
    {
      assert Agree(c, s, r, k, time);
    }
  }

  /** One event that is not a sweep, on both sides. */
  lemma TwinsStep(c: Config, s: State, r: State, e: Event, time: int)
    requires Inv(c, s, time) && Inv(c, r, time) && Twins(c, s, r, time)
    requires !e.Sweep? && time <= e.now
    ensures Twins(c, Apply(c, s, e), Apply(c, r, e), e.now)
  {
    match e
    case Take(key, now) => TwinsTake(c, s, r, key, time, now);
    case Wake(key, due, now) =>
      if due <= now {
        TwinsWake(c, s, r, key, due, time, now);
      } else {
        TwinsLater(c, s, r, time, now);
      }
  }

  /** One event on the one side, and on the other unless it is a sweep. */
  lemma TwinsNext(c: Config, s: State, r: State, e: Event, time: int, time': int)
    requires Inv(c, s, time) && Inv(c, r, time) && Twins(c, s, r, time) && c.per >= 0
    requires time <= time' && Stamp(e) <= time' && (!e.Sweep? ==> e.now == time')
    requires e.Sweep? ==> c.per <= e.maxAge + 1
    ensures var r' := if e.Sweep? then r else Apply(c, r, e);
            Twins(c, Apply(c, s, e), r', time') && Inv(c, r', time')
  {
    if e.Sweep? {
      TwinsSweep(c, s, r, e.at, e.maxAge, time, time');
      Idling(c, r, time, time');
    } else {
      ApplyKeeps(c, r, e, time, time');
      TwinsStep(c, s, r, e, time);
    }
  }

  lemma {:induction false} RunsAreTwins(c: Config, events: seq<Event>)
    requires c.per >= 0 && Ordered(events) && Patient(events, c.per)
    ensures Twins(c, Run(c, events), Run(c, WithoutSweeps(events)), Latest(events))
    ensures Inv(c, Run(c, WithoutSweeps(events)), Latest(events))
  {
    if events != [] {
      var front, e := events[..|events| - 1], events[|events| - 1];
      RunsAreTwins(c, front);
      RunKeeps(c, front);
      var quiet := WithoutSweeps(front);
      assert (quiet + [e])[..|quiet|] == quiet;
      TwinsNext(c, Run(c, front), Run(c, quiet), e, Latest(front), Latest(events));
    }
  }

  /** Patient sweeps, the default ones included, change no decision: same admissions, at the same instants. */
  lemma SweepsAreInvisible(c: Config, events: seq<Event>)
    requires c.per >= 0 && Ordered(events) && Patient(events, c.per)
    ensures Run(c, events).log == Run(c, WithoutSweeps(events)).log
  {
    RunsAreTwins(c, events);
  }

  // ----- advice

  function After(c: Config, s: State, key: string, now: int): int {
    match Look(s, key)
    case None => 0
    case Some(t) => if t.last + c.per < now then 0 else t.last + c.per - now
  }

  /** With no other Take on the key, a later Take is admitted without waiting exactly from the advised instant on. */
  lemma AfterIsExact(c: Config, s: State, key: string, now: int, u: int)
    requires now <= u && key in s.storage && s.storage[key] < |s.items|
    ensures After(c, s, key, now) >= 0
    ensures Decide(c, s.items[s.storage[key]], u) == Admit <==> u >= now + After(c, s, key, now)
  {
  }

  // ----- the strategy itself: each critical section does what the machine's event does

  /** Items are kept in `items` and never moved, so a position stands for a pointer. */
  class Strategy {
    const c: Config
    var storage: map<string, nat>
    var items: seq<Item>
    var cleanupRunning: bool

    ghost var sleepers: map<string, map<int, nat>>
    ghost var log: seq<Sched>

    ghost function View(): State
      reads this
    {
      State(storage, items, sleepers, log)
    }

    /** Keys point at items, and while there are keys there is a janitor. */
    ghost predicate Valid()
      reads this
    {
      && (forall k :: k in storage ==> storage[k] < |items|)
      && (storage != map[] ==> cleanupRunning)
    }

    constructor (c: Config)
      ensures Valid() && this.c == c && View() == Run(c, []) && !cleanupRunning
    {
      this.c := c;
      storage, items, cleanupRunning, sleepers, log := map[], [], false, map[], [];
    }

    /** Take up to its sleep; `id` is the pointer a sleeper holds on to. */
    method Enter(key: string, now: int) returns (d: Decision, id: nat)
      requires Valid()
      modifies this
      ensures Valid() && View() == Took(c, old(View()), key, now)
      ensures key in storage && id == storage[key]
      ensures d == if key in old(storage) then Decide(c, old(items)[old(storage)[key]], now) else Admit
    {
      var first := key !in storage;
      if first {
        storage := storage[key := |items|];
        items := items + [Item(0, 0)];
      }
      if !cleanupRunning {
        cleanupRunning := true;
      }
      id := storage[key];
      if first {
        items := items[id := items[id].(last := now)];
        assert items == old(items) + [Item(now, 0)];
        log := log + [Sched(key, now, now)];
        return Admit, id;
      }
      var t := items[id];
      var next := t.last + c.per;
      if next - now <= 0 {
        items := items[id := t.(last := now)];
        log := log + [Sched(key, now, now)];
        return Admit, id;
      }
      if t.count >= c.size {
        return Drop, id;
      }
      items := items[id := Item(next, t.count + 1)];
      sleepers := sleepers[key := Asleep(old(View()), key)[next := id]];
      log := log + [Sched(key, now, next)];
      return Wait(next), id;
    }

    /** Take after its sleep, through the pointer it kept. */
    method Wake(key: string, due: int, id: nat)
      requires Valid() && due in Asleep(View(), key) && Asleep(View(), key)[due] == id < |items|
      modifies this
      ensures Valid() && View() == Woke(old(View()), key, due)
    {
      items := items[id := items[id].(count := items[id].count - 1)];
      sleepers := sleepers[key := Asleep(old(View()), key) - {due}];
    }

    method Advice(key: string, now: int) returns (d: int)
      requires Valid()
      ensures d == After(c, View(), key, now)
    {
      if key !in storage {
        return 0;
      }
      var next := items[storage[key]].last + c.per;
      if next < now {
        return 0;
      }
      return next - now;
    }

    /** The sweep; the one that empties the map also stops the janitor, in the same critical section. */
    method EvictStale(now: int, maxAge: int) returns (stopped: bool)
      requires Valid()
      modifies this
      ensures Valid() && View() == Swept(old(View()), now - maxAge)
      ensures stopped <==> storage == map[]
      ensures cleanupRunning <==> old(cleanupRunning) && !stopped
    {
      var deleteBefore := now - maxAge;
      var todo := storage.Keys;
      while todo != {}
        invariant todo <= storage.Keys <= old(storage).Keys
        invariant forall k :: k in storage ==> storage[k] == old(storage)[k]
        invariant forall k :: k in old(storage) && k !in todo ==>
                    (k in storage <==> !Idle(items[old(storage)[k]], deleteBefore))
        decreases todo
        modifies this`storage
      {
        var k :| k in todo;
        todo := todo - {k};
        if items[storage[k]].count <= 0 && items[storage[k]].last < deleteBefore {
          storage := storage - {k};
        }
      }
      assert storage == Swept(old(View()), deleteBefore).storage;
      if |storage| > 0 {
        return false;
      }
      cleanupRunning := false;
      return true;
    }
  }
}
