/**
 The concurrent-queue limiter as an interleaving of its critical sections and its channel sends.
 Take queues under the lock, sends a token outside it and re-enters the lock to leave the queue;
 Put receives a token while it holds the lock.  Items live behind pointers: a waiter keeps the
 item it found, while Put looks its key up again.
 */
module ConcurrentQueue {
  import opened Counting

  /** `tokens` is what the channel holds; its capacity is the limiter's. */
  datatype Item = Item(tokens: int, process: int, queue: int)

  datatype Pc =
    | Idle
    | Sending(key: string, id: nat)    // queued, blocked on the channel
    | Sent(key: string, id: nat)       // token sent, about to leave the queue
    | Holding(key: string, id: nat)    // Take returned true; one Put is owed

  datatype State = State(storage: map<string, nat>, items: seq<Item>, threads: map<nat, Pc>)

  datatype Config = Config(capacity: int, size: int)

  datatype Action = Take(t: nat, key: string) | Send(t: nat) | Leave(t: nat) | Put(t: nat)

  function At(s: State, t: nat): Pc {
    if t in s.threads then s.threads[t] else Idle
  }

  function Create(s: State, key: string): State {
    s.(storage := s.storage[key := |s.items|], items := s.items + [Item(0, 0, 0)])
  }

  /** The first critical section of Take: find or create the item, then queue or drop. */
  function Enter(c: Config, s: State, t: nat, key: string): State {
    var s1 := if key in s.storage then s else Create(s, key);
    var id := s1.storage[key];
    if id >= |s1.items| || s1.items[id].queue >= c.size then s1
    else
      var i := s1.items[id];
      s1.(items := s1.items[id := i.(process := i.process + 1, queue := i.queue + 1)],
          threads := s1.threads[t := Sending(key, id)])
  }

  /** Put: receive, count down, and drop the item when nobody is left. */
  function Returned(s: State, t: nat, key: string): State {
    if key !in s.storage || s.storage[key] >= |s.items| then s.(threads := s.threads[t := Idle])
    else
      var id := s.storage[key];
      var i := s.items[id].(tokens := s.items[id].tokens - 1, process := s.items[id].process - 1);
      s.(items := s.items[id := i], threads := s.threads[t := Idle],
         storage := if i.process <= 0 && i.queue <= 0 then s.storage - {key} else s.storage)
  }

  /** Whether the thread can take this step now, or has to wait. */
  predicate Enabled(c: Config, s: State, a: Action) {
    match a
    case Take(t, _) => At(s, t).Idle?
    case Send(t) => At(s, t).Sending? && At(s, t).id < |s.items| && s.items[At(s, t).id].tokens < c.capacity
    case Leave(t) => At(s, t).Sent? && At(s, t).id < |s.items|
    case Put(t) =>
      && At(s, t).Holding?
      && var key := At(s, t).key;
         key in s.storage && s.storage[key] < |s.items| ==> s.items[s.storage[key]].tokens > 0
  }

  function Apply(c: Config, s: State, a: Action): State {
    if !Enabled(c, s, a) then s
    else match a
         case Take(t, key) => Enter(c, s, t, key)
         case Send(t) =>
           var pc := At(s, t);
           s.(items := s.items[pc.id := s.items[pc.id].(tokens := s.items[pc.id].tokens + 1)],
              threads := s.threads[t := Sent(pc.key, pc.id)])
         case Leave(t) =>
           var pc := At(s, t);
           s.(items := s.items[pc.id := s.items[pc.id].(queue := s.items[pc.id].queue - 1)],
              threads := s.threads[t := Holding(pc.key, pc.id)])
         case Put(t) => Returned(s, t, At(s, t).key)
  }

  function Run(c: Config, schedule: seq<Action>): State {
    if schedule == [] then State(map[], [], map[])
    else Apply(c, Run(c, schedule[..|schedule| - 1]), schedule[|schedule| - 1])
  }

  // ----- who is where

  predicate InQueue(pc: Pc, id: nat) {
    (pc.Sending? || pc.Sent?) && pc.id == id
  }

  predicate HasToken(pc: Pc, id: nat) {
    (pc.Sent? || pc.Holding?) && pc.id == id
  }

  predicate Uses(pc: Pc, id: nat) {
    !pc.Idle? && pc.id == id
  }

  function Queued(s: State, id: nat): set<nat> {
    set t | t in s.threads && InQueue(s.threads[t], id)
  }

  function Holders(s: State, id: nat): set<nat> {
    set t | t in s.threads && HasToken(s.threads[t], id)
  }

  function Users(s: State, id: nat): set<nat> {
    set t | t in s.threads && Uses(s.threads[t], id)
  }

  ghost predicate Counted(s: State, id: nat)
    requires id < |s.items|
  {
    && s.items[id].queue == |Queued(s, id)|
    && s.items[id].tokens == |Holders(s, id)|
    && s.items[id].process == |Users(s, id)|
  }

  ghost predicate Bounded(c: Config, i: Item) {
    i.tokens <= c.capacity && (i.queue == 0 || i.queue <= c.size)
  }

  /** Whoever uses an item finds it under the key. */
  predicate Reachable(s: State, pc: Pc) {
    pc.Idle? || (pc.key in s.storage && s.storage[pc.key] == pc.id)
  }

  /** The counters count, and the map and the waiters agree on which item a key has. */
  ghost predicate Coherent(s: State) {
    && (forall id: nat :: id < |s.items| ==> Counted(s, id))
    && (forall t :: t in s.threads ==> Reachable(s, s.threads[t]))
    && (forall k :: k in s.storage ==> s.storage[k] < |s.items|)
    && (forall j, k :: j in s.storage && k in s.storage && s.storage[j] == s.storage[k] ==> j == k)
  }

  ghost predicate Limited(c: Config, s: State) {
    && (forall id: nat :: id < |s.items| ==> Bounded(c, s.items[id]))
    && (c.size >= 1 ==> forall k :: k in s.storage && s.storage[k] < |s.items| ==> s.items[s.storage[k]].process > 0)
  }

  ghost predicate Inv(c: Config, s: State) {
    Coherent(s) && Limited(c, s)
  }

  /** One thread moved: an item's three counts follow that thread. */
  lemma CountFollows(s: State, s': State, t: nat, id: nat)
    requires id < |s.items| <= |s'.items| && Counted(s, id)
    requires t in s'.threads && s'.threads == s.threads[t := s'.threads[t]]
    requires s'.items[id].queue + Bit(InQueue(At(s, t), id)) == s.items[id].queue + Bit(InQueue(At(s', t), id))
    requires s'.items[id].tokens + Bit(HasToken(At(s, t), id)) == s.items[id].tokens + Bit(HasToken(At(s', t), id))
    requires s'.items[id].process + Bit(Uses(At(s, t), id)) == s.items[id].process + Bit(Uses(At(s', t), id))
    ensures Counted(s', id)
  {
    assert Queued(s', id) - {t} == Queued(s, id) - {t};
    OneMember(Queued(s, id), Queued(s', id), t);
    assert Holders(s', id) - {t} == Holders(s, id) - {t};
    OneMember(Holders(s, id), Holders(s', id), t);
    assert Users(s', id) - {t} == Users(s, id) - {t};
    OneMember(Users(s, id), Users(s', id), t);
  }

  /** A new item has nobody. */
  lemma FreshCounted(s: State, s': State, key: string)
    requires forall t :: t in s.threads ==> Reachable(s, s.threads[t])
    requires forall k :: k in s.storage ==> s.storage[k] < |s.items|
    requires s' == Create(s, key)
    ensures Counted(s', |s.items|)
  {
    assert Queued(s', |s.items|) == {} && Holders(s', |s.items|) == {} && Users(s', |s.items|) == {};
  }

  lemma CreateKeeps(s: State, key: string)
    requires Coherent(s) && key !in s.storage
    ensures Coherent(Create(s, key))
  {
    var s' := Create(s, key);
    FreshCounted(s, s', key);
    forall id: nat | id < |s.items|
      ensures Counted(s', id)
    {
      assert Counted(s, id);
      assert Queued(s', id) == Queued(s, id) && Holders(s', id) == Holders(s, id) && Users(s', id) == Users(s, id);
    }
    forall t | t in s'.threads
      ensures Reachable(s', s'.threads[t])
    {
      assert Reachable(s, s.threads[t]);
    }
  }

  /** One thread moved to `pc` on item `id`, whose counters moved with it. */
  lemma MoveKeeps(s: State, t: nat, id: nat, i: Item, pc: Pc)
    requires Coherent(s) && id < |s.items|
    requires At(s, t).Idle? || At(s, t).id == id
    requires pc.Idle? || (pc.id == id && Reachable(s, pc))
    requires i.queue + Bit(InQueue(At(s, t), id)) == s.items[id].queue + Bit(InQueue(pc, id))
    requires i.tokens + Bit(HasToken(At(s, t), id)) == s.items[id].tokens + Bit(HasToken(pc, id))
    requires i.process + Bit(Uses(At(s, t), id)) == s.items[id].process + Bit(Uses(pc, id))
    ensures Coherent(s.(items := s.items[id := i], threads := s.threads[t := pc]))
  {
    var s' := s.(items := s.items[id := i], threads := s.threads[t := pc]);
    forall d: nat | d < |s'.items|
      ensures Counted(s', d)
    {
      CountFollows(s, s', t, d);
    }
    forall u | u in s'.threads
      ensures Reachable(s', s'.threads[u])
    {
      if u != t {
        assert Reachable(s, s.threads[u]);
      }
    }
  }

  /** An item without users is not the item of any waiter, so its key can go. */
  lemma DropKeeps(s: State, key: string)
    requires Coherent(s) && key in s.storage && s.items[s.storage[key]].process <= 0
    ensures Coherent(s.(storage := s.storage - {key}))
  {
    var s', id := s.(storage := s.storage - {key}), s.storage[key];
    assert Counted(s, id) && Users(s, id) == {};
    forall t | t in s'.threads
      ensures Reachable(s', s'.threads[t])
    {
      assert Reachable(s, s.threads[t]);
      assert t !in Users(s, id);
    }
    forall d: nat | d < |s'.items|
      ensures Counted(s', d)
    {
      assert Counted(s, d);
      assert Queued(s', d) == Queued(s, d) && Holders(s', d) == Holders(s, d) && Users(s', d) == Users(s, d);
    }
  }

  // ----- every step keeps the books

  lemma EnterKeeps(c: Config, s: State, t: nat, key: string)
    requires c.capacity >= 1 && Inv(c, s) && At(s, t).Idle?
    ensures Inv(c, Enter(c, s, t, key))
  {
    if key in s.storage {
      QueueCoherent(c, s, t, key);
      QueueLimited(c, s, t, key);
    } else {
      CreateKeeps(s, key);
      QueueCoherent(c, Create(s, key), t, key);
      QueueLimited(c, Create(s, key), t, key);
    }
  }

  /** A Take that found or made its item. */
  lemma QueueCoherent(c: Config, s: State, t: nat, key: string)
    requires Coherent(s) && At(s, t).Idle? && key in s.storage
    ensures Coherent(Enter(c, s, t, key))
  {
    var id := s.storage[key];
    if s.items[id].queue < c.size {
      var i := s.items[id];
      MoveKeeps(s, t, id, i.(process := i.process + 1, queue := i.queue + 1), Sending(key, id));
    }
  }

  /** Every other key has users already, and this one gets one if the queue has room at all. */
  lemma QueueLimited(c: Config, s: State, t: nat, key: string)
    requires Coherent(s) && key in s.storage
    requires forall id: nat :: id < |s.items| ==> Bounded(c, s.items[id])
    requires c.size >= 1 ==> forall k :: k in s.storage && k != key ==> s.items[s.storage[k]].process > 0
    requires c.size >= 1 ==> s.items[s.storage[key]].process > 0 || s.items[s.storage[key]].queue == 0
    ensures Limited(c, Enter(c, s, t, key))
  {
    assert Counted(s, s.storage[key]);
  }

  lemma SendKeeps(c: Config, s: State, t: nat)
    requires Inv(c, s) && Enabled(c, s, Send(t))
    ensures Inv(c, Apply(c, s, Send(t)))
  {
    var pc := At(s, t);
    MoveKeeps(s, t, pc.id, s.items[pc.id].(tokens := s.items[pc.id].tokens + 1), Sent(pc.key, pc.id));
  }

  lemma LeaveKeeps(c: Config, s: State, t: nat)
    requires Inv(c, s) && Enabled(c, s, Leave(t))
    ensures Inv(c, Apply(c, s, Leave(t)))
  {
    var pc := At(s, t);
    MoveKeeps(s, t, pc.id, s.items[pc.id].(queue := s.items[pc.id].queue - 1), Holding(pc.key, pc.id));
    assert Counted(Apply(c, s, Leave(t)), pc.id);
  }

  lemma PutKeeps(c: Config, s: State, t: nat)
    requires Inv(c, s) && Enabled(c, s, Put(t))
    ensures Inv(c, Apply(c, s, Put(t)))
  {
    var pc := At(s, t);
    assert Reachable(s, pc);
    var i := s.items[pc.id];
    var i' := i.(tokens := i.tokens - 1, process := i.process - 1);
    MoveKeeps(s, t, pc.id, i', Idle);
    var s' := s.(items := s.items[pc.id := i'], threads := s.threads[t := Idle]);
    assert Counted(s', pc.id);
    QueuedAreUsers(s', pc.id);
    if i'.process <= 0 {
      DropKeeps(s', pc.key);
    }
  }

  lemma QueuedAreUsers(s: State, id: nat)
    ensures |Queued(s, id)| <= |Users(s, id)|
  {
    assert Queued(s, id) <= Users(s, id);
    SubsetCounts(Queued(s, id), Users(s, id));
  }

  lemma {:induction false} RunKeeps(c: Config, schedule: seq<Action>)
    requires c.capacity >= 1
    ensures Inv(c, Run(c, schedule))
  {
    if schedule == [] {
      assert Run(c, schedule) == State(map[], [], map[]);
    } else {
      var s, a := Run(c, schedule[..|schedule| - 1]), schedule[|schedule| - 1];
      RunKeeps(c, schedule[..|schedule| - 1]);
      if Enabled(c, s, a) {
        match a
        case Take(t, key) => EnterKeeps(c, s, t, key);
        case Send(t) => SendKeeps(c, s, t);
        case Leave(t) => LeaveKeeps(c, s, t);
        case Put(t) => PutKeeps(c, s, t);
      }
    }
  }

  // ----- what the limiter promises

  /** At every instant of every run: the requests under way for a key never exceed the capacity,
      those waiting never exceed the queue size, and an item's three numbers are exactly the
      requests holding a slot, the requests queued, and both together. */
  lemma CapacityHolds(c: Config, schedule: seq<Action>, id: nat)
    requires c.capacity >= 1
    requires id < |Run(c, schedule).items|
    ensures |Holders(Run(c, schedule), id)| <= c.capacity
    ensures Queued(Run(c, schedule), id) == {} || |Queued(Run(c, schedule), id)| <= c.size
    ensures Counted(Run(c, schedule), id)
  {
    RunKeeps(c, schedule);
    assert Counted(Run(c, schedule), id) && Bounded(c, Run(c, schedule).items[id]);
  }

  /** Two live keys never share an item, and whoever waits or holds has its key's own item. */
  lemma KeysAreApart(c: Config, schedule: seq<Action>, t: nat)
    requires c.capacity >= 1
    requires !At(Run(c, schedule), t).Idle?
    ensures var s := Run(c, schedule);
            && At(s, t).key in s.storage
            && s.storage[At(s, t).key] == At(s, t).id < |s.items|
            && forall k :: k in s.storage && s.storage[k] == At(s, t).id ==> k == At(s, t).key
  {
    RunKeeps(c, schedule);
    assert Reachable(Run(c, schedule), At(Run(c, schedule), t));
  }

  /** The receive inside Put, made with the lock held, never blocks: a request that was let in
      still finds its item under its key, with a token in the channel.  It takes exactly one
      token out and leaves every other key's item as it was. */
  lemma PutNeverBlocks(c: Config, schedule: seq<Action>, t: nat)
    requires c.capacity >= 1
    requires At(Run(c, schedule), t).Holding?
    ensures Enabled(c, Run(c, schedule), Put(t))
    ensures var s := Run(c, schedule);
            var s' := Apply(c, s, Put(t));
            var id := At(s, t).id;
            && At(s', t).Idle?
            && id < |s.items| == |s'.items|
            && s'.items[id].tokens == s.items[id].tokens - 1
            && s'.items[id].process == s.items[id].process - 1
            && s'.items == s.items[id := s'.items[id]]
            && (At(s, t).key in s'.storage <==> Users(s', id) != {})
  {
    var s := Run(c, schedule);
    RunKeeps(c, schedule);
    var pc := At(s, t);
    assert Reachable(s, pc) && Counted(s, pc.id);
    assert t in Holders(s, pc.id);
    PutKeeps(c, s, t);
    var s' := Apply(c, s, Put(t));
    assert Counted(s', pc.id);
    QueuedAreUsers(s', pc.id);
  }

  /** An item leaves the map only when nobody waits on it and nobody holds a slot of it. */
  lemma DroppedOnlyWhenUnused(c: Config, schedule: seq<Action>, a: Action, key: string)
    requires c.capacity >= 1
    requires key in Run(c, schedule).storage && key !in Run(c, schedule + [a]).storage
    ensures Users(Run(c, schedule + [a]), Run(c, schedule).storage[key]) == {}
  {
    var s := Run(c, schedule);
    assert (schedule + [a])[..|schedule|] == schedule;
    RunKeeps(c, schedule);
    RunKeeps(c, schedule + [a]);
    var id := s.storage[key];
    assert Counted(Run(c, schedule + [a]), id);
  }

  /** A Take is queued exactly when fewer than Size are queued for its key; otherwise the request is dropped. */
  lemma QueuedIffRoom(c: Config, schedule: seq<Action>, t: nat, key: string)
    requires c.capacity >= 1 && At(Run(c, schedule), t).Idle?
    ensures var s := Run(c, schedule);
            var s' := Apply(c, s, Take(t, key));
            && (At(s', t).Sending? <==> (if key in s.storage then |Queued(s, s.storage[key])| else 0) < c.size)
            && (!At(s', t).Sending? ==> s'.threads == s.threads)
            && (At(s', t).Sending? ==> At(s', t).key == key)
  {
    RunKeeps(c, schedule);
    var s := Run(c, schedule);
    if key in s.storage {
      assert Counted(s, s.storage[key]);
    }
  }

  /** A queued request gets its slot exactly while fewer than Capacity hold one. */
  lemma SendsIffRoom(c: Config, schedule: seq<Action>, t: nat)
    requires c.capacity >= 1 && At(Run(c, schedule), t).Sending?
    ensures var s := Run(c, schedule);
            Enabled(c, s, Send(t)) <==> |Holders(s, At(s, t).id)| < c.capacity
  {
    RunKeeps(c, schedule);
    var s := Run(c, schedule);
    assert Reachable(s, s.threads[t]);
    assert Counted(s, At(s, t).id);
  }

  /** Nobody waits for ever behind nobody: whenever a request is under way, one of them can move. */
  lemma NeverStuck(c: Config, schedule: seq<Action>, t: nat) returns (a: Action)
    requires c.capacity >= 1
    requires !At(Run(c, schedule), t).Idle?
    ensures Enabled(c, Run(c, schedule), a) && !a.Take?
    ensures !At(Run(c, schedule), a.t).Idle? && At(Run(c, schedule), a.t).id == At(Run(c, schedule), t).id
    ensures At(Apply(c, Run(c, schedule), a), a.t) != At(Run(c, schedule), a.t)
  {
    var s := Run(c, schedule);
    RunKeeps(c, schedule);
    var pc := At(s, t);
    assert Reachable(s, pc);
    var u := t;
    if pc.Sending? && s.items[pc.id].tokens >= c.capacity {
      assert Counted(s, pc.id);
      assert Holders(s, pc.id) != {};
      u :| u in Holders(s, pc.id);
    }
    match At(s, u) {
      case Sending(_, _) => a := Send(u);
      case Sent(_, _) => a := Leave(u);
      case Holding(_, _) => PutNeverBlocks(c, schedule, u); a := Put(u);
    }
  }

  /** Every key in the map has somebody. */
  ghost predicate NoLitter(s: State) {
    forall k :: k in s.storage ==> Users(s, s.storage[k]) != {}
  }

  /** The map holds exactly the keys somebody waits on or holds, after every run, if and only if
      the queue has room for at least one.  With `size` at most zero the item a refused Take
      created stays for ever. */
  lemma TidyIffRoomToQueue(c: Config)
    requires c.capacity >= 1
    ensures (forall schedule :: NoLitter(Run(c, schedule))) <==> c.size >= 1
  {
    if c.size >= 1 {
      forall schedule
        ensures NoLitter(Run(c, schedule))
      {
        var s := Run(c, schedule);
        RunKeeps(c, schedule);
        forall k | k in s.storage
          ensures Users(s, s.storage[k]) != {}
        {
          assert Counted(s, s.storage[k]);
        }
      }
    } else {
      LitterRun(c);
    }
  }

  lemma LitterRun(c: Config)
    requires c.size <= 0
    ensures !NoLitter(Run(c, [Take(0, "k")]))
  {
    var schedule := [Take(0, "k")];
    var s := Run(c, schedule);
    assert schedule[..|schedule| - 1] == [];
    assert Run(c, []) == State(map[], [], map[]);
    assert "k" in s.storage && s.threads == map[];
    assert Users(s, s.storage["k"]) == {};
  }

  // ----- the strategy itself: each critical section does what the machine's step does

  /** Items are kept in `items` and never moved, so a position stands for a pointer. */
  class Strategy {
    const c: Config
    var storage: map<string, nat>
    var items: seq<Item>

    ghost var threads: map<nat, Pc>

    ghost function View(): State
      reads this
    {
      State(storage, items, threads)
    }

    ghost predicate Valid()
      reads this
    {
      forall k :: k in storage ==> storage[k] < |items|
    }

    constructor (c: Config)
      ensures Valid() && this.c == c && View() == Run(c, [])
    {
      this.c := c;
      storage, items, threads := map[], [], map[];
    }

    /** Take up to the send; `queued` says whether the request goes on to wait. */
    method Join(key: string, ghost t: nat) returns (queued: bool, id: nat)
      requires Valid() && At(View(), t).Idle?
      modifies this
      ensures Valid() && View() == Apply(c, old(View()), Take(t, key))
      ensures queued ==> id < |items| && At(View(), t) == Sending(key, id)
      ensures !queued ==> At(View(), t).Idle?
    {
      if key !in storage {
        storage := storage[key := |items|];
        items := items + [Item(0, 0, 0)];
      }
      id := storage[key];
      if items[id].queue >= c.size {
        return false, id;
      }
      items := items[id := items[id].(process := items[id].process + 1, queue := items[id].queue + 1)];
      threads := threads[t := Sending(key, id)];
      return true, id;
    }

    /** Take after the send, through the pointer it kept. */
    method LeaveQueue(id: nat, ghost t: nat)
      requires Valid() && At(View(), t).Sent? && At(View(), t).id == id < |items|
      modifies this
      ensures Valid() && View() == Apply(c, old(View()), Leave(t))
    {
      items := items[id := items[id].(queue := items[id].queue - 1)];
      threads := threads[t := Holding(threads[t].key, id)];
    }

    /** Put; the precondition is what the receive would wait for. */
    method Release(key: string, ghost t: nat)
      requires Valid() && At(View(), t).Holding? && At(View(), t).key == key
      requires key in storage ==> items[storage[key]].tokens > 0
      modifies this
      ensures Valid() && View() == Apply(c, old(View()), Put(t))
    {
      threads := threads[t := Idle];
      if key !in storage {
        return;
      }
      var id := storage[key];
      items := items[id := items[id].(tokens := items[id].tokens - 1)];
      items := items[id := items[id].(process := items[id].process - 1)];
      if items[id].process <= 0 && items[id].queue <= 0 {
        storage := storage - {key};
      }
    }
  }
}
