/**
 The hedging supervisor: an event loop over leg results, the hedge timer and the client's context.

 Legs answer, the timer ticks and the client leaves in any order; the supervisor's select takes any
 event that is ready; the reaper drains what is left after the return.  Every leg eventually
 answers (safeRoundTrip publishes a panic as an error), and a winning result carries a response.
 */
module Hedging {

  datatype Phase = Running | Answered | Taken

  /** `closes` and `hands` count how often this leg's body was closed here and handed to the caller. */
  datatype Leg = Leg(phase: Phase, won: bool, hasBody: bool, cancelled: bool, closes: nat, hands: nat)

  datatype Timer = Stopped | Armed | Ticked

  datatype Outcome = Looping | Winner(idx: nat, bodyClosed: bool) | NoWinner | ClientGone

  datatype State = State(legs: seq<Leg>, received: nat, timer: Timer, clientLeft: bool, outcome: Outcome, reaping: nat)

  datatype Config = Config(max: nat, hedgeOnError: bool)

  datatype Event =
    | Answer(i: nat, won: bool, hasBody: bool)   // leg i sends its result
    | Fire                                       // the timer expires
    | Leave                                      // the client's context ends
    | TakeResult(i: nat)                         // select: a result
    | TakeTick                                   // select: the timer
    | TakeDone                                   // select: the client's context
    | Reap(i: nat)                               // the reaper receives a straggler
    | CloseBody                                  // the caller closes the winner's body

  const FRESH_LEG := Leg(Running, false, false, false, 0, 0)

  /** One hedge beyond the original at least. */
  predicate Usable(c: Config) {
    c.max >= 2
  }

  /** The primary leg is under way and the timer armed. */
  const START := State([FRESH_LEG], 0, Armed, false, Looping, 0)

  /** drainClose. */
  function Drained(leg: Leg): Leg {
    leg.(phase := Taken, closes := leg.closes + (if leg.hasBody then 1 else 0))
  }

  function CancelAllBut(legs: seq<Leg>, keep: int): (r: seq<Leg>)
    ensures |r| == |legs|
    ensures forall j :: 0 <= j < |legs| ==> r[j] == if j == keep then legs[j] else legs[j].(cancelled := true)
  {
    seq(|legs|, j requires 0 <= j < |legs| => if j == keep then legs[j] else legs[j].(cancelled := true))
  }

  /** launch, then re-arm the timer while another hedge remains. */
  function Launched(s: State, c: Config): State {
    s.(legs := s.legs + [FRESH_LEG], timer := if |s.legs| + 1 < c.max then Armed else Stopped)
  }

  /** The winning arm: cancel the others, hand the body over, leave the stragglers to the reaper. */
  function Won(s: State, i: nat): State
    requires i < |s.legs|
  {
    var leg := s.legs[i].(phase := Taken, hands := s.legs[i].hands + (if s.legs[i].hasBody then 1 else 0),
                          cancelled := s.legs[i].cancelled || !s.legs[i].hasBody);
    var received := s.received + 1;
    s.(legs := CancelAllBut(s.legs, i)[i := leg], received := received, outcome := Winner(i, !leg.hasBody),
       reaping := if |s.legs| >= received then |s.legs| - received else 0)
  }

  /** The losing arm: release the leg, and hedge at once, wait on, or give up. */
  function Lost(s: State, i: nat, c: Config): State
    requires i < |s.legs|
  {
    var s1 := s.(legs := s.legs[i := Drained(s.legs[i].(cancelled := true))], received := s.received + 1);
    if s1.received == c.max then s1.(outcome := NoWinner)
    else if c.hedgeOnError && |s1.legs| < c.max then Launched(s1, c)
    else s1
  }

  function Ticking(s: State, c: Config): State {
    if |s.legs| < c.max then Launched(s, c) else s.(timer := Stopped)
  }

  function Gone(s: State): State {
    s.(legs := CancelAllBut(s.legs, -1), outcome := ClientGone,
       reaping := if |s.legs| >= s.received then |s.legs| - s.received else 0)
  }

  predicate Enabled(s: State, e: Event) {
    match e
    case Answer(i, _, _) => i < |s.legs| && s.legs[i].phase == Running
    case Fire => s.timer == Armed && s.outcome == Looping
    case Leave => !s.clientLeft
    case TakeResult(i) => s.outcome == Looping && i < |s.legs| && s.legs[i].phase == Answered
    case TakeTick => s.outcome == Looping && s.timer == Ticked
    case TakeDone => s.outcome == Looping && s.clientLeft
    case Reap(i) => s.reaping > 0 && i < |s.legs| && s.legs[i].phase == Answered && s.outcome != Looping
    case CloseBody => s.outcome.Winner? && !s.outcome.bodyClosed && s.outcome.idx < |s.legs|
  }

  function Apply(s: State, e: Event, c: Config): State {
    if !Enabled(s, e) then s
    else match e
         case Answer(i, won, hasBody) =>
           s.(legs := s.legs[i := s.legs[i].(phase := Answered, won := won, hasBody := hasBody)])
         case Fire => s.(timer := Ticked)
         case Leave => s.(clientLeft := true)
         case TakeResult(i) => if s.legs[i].won then Won(s, i) else Lost(s, i, c)
         case TakeTick => Ticking(s, c)
         case TakeDone => Gone(s)
         case Reap(i) => s.(legs := s.legs[i := Drained(s.legs[i])], reaping := s.reaping - 1)
         case CloseBody =>
           s.(legs := s.legs[s.outcome.idx := s.legs[s.outcome.idx].(cancelled := true)],
              outcome := Winner(s.outcome.idx, true))
  }

  function Run(events: seq<Event>, c: Config): State {
    if events == [] then START
    else Apply(Run(events[..|events| - 1], c), events[|events| - 1], c)
  }

  /** The supervisor goroutine's own variables, and the three arms of its select. */
  class Supervisor {
    const cfg: Config
    var legs: seq<Leg>
    var received: nat
    var timer: Timer
    var clientLeft: bool
    var outcome: Outcome
    var reaping: nat

    constructor (c: Config)
      ensures cfg == c && Snapshot() == START
    {
      cfg := c;
      legs, received, timer, clientLeft, outcome, reaping := [FRESH_LEG], 0, Armed, false, Looping, 0;
    }

    function Snapshot(): State
      reads this
    {
      State(legs, received, timer, clientLeft, outcome, reaping)
    }

    method CancelOthers(keep: int)
      modifies this`legs
      ensures legs == CancelAllBut(old(legs), keep)
    {
      for j := 0 to |legs|
        invariant |legs| == |old(legs)|
        invariant forall k :: 0 <= k < |legs| ==>
                    legs[k] == if k < j && k != keep then old(legs)[k].(cancelled := true) else old(legs)[k]
      {
        if j != keep {
          legs := legs[j := legs[j].(cancelled := true)];
        }
      }
    }

    method Launch()
      modifies this`legs
      ensures legs == old(legs) + [FRESH_LEG]
    {
      legs := legs + [FRESH_LEG];
    }

    /** A result arrives: the winner is returned, a loser is drained and may trigger the next hedge. */
    method OnResult(i: nat)
      requires Enabled(Snapshot(), TakeResult(i)) && received < |legs|
      modifies this
      ensures Snapshot() == Apply(old(Snapshot()), TakeResult(i), cfg)
    {
      received := received + 1;
      var res := legs[i];
      if res.won {
        CancelOthers(i);
        reaping := |legs| - received;
        legs := legs[i := legs[i].(phase := Taken, hands := legs[i].hands + (if res.hasBody then 1 else 0))];
        if !res.hasBody {
          legs := legs[i := legs[i].(cancelled := true)];
        }
        outcome := Winner(i, !res.hasBody);
        return;
      }
      legs := legs[i := legs[i].(cancelled := true)];
      legs := legs[i := Drained(legs[i])];
      if received == cfg.max {
        outcome := NoWinner;
        return;
      }
      if cfg.hedgeOnError && |legs| < cfg.max {
        timer := Stopped;
        Launch();
        if |legs| < cfg.max {
          timer := Armed;
        }
      }
    }

    method OnTick()
      requires Enabled(Snapshot(), TakeTick)
      modifies this
      ensures Snapshot() == Apply(old(Snapshot()), TakeTick, cfg)
    {
      timer := Stopped;
      if |legs| < cfg.max {
        Launch();
        if |legs| < cfg.max {
          timer := Armed;
        }
      }
    }

    method OnDone()
      requires Enabled(Snapshot(), TakeDone) && received <= |legs|
      modifies this
      ensures Snapshot() == Apply(old(Snapshot()), TakeDone, cfg)
    {
      CancelOthers(-1);
      reaping := |legs| - received;
      outcome := ClientGone;
    }
  }

  // ----- the invariant

  function TakenCount(legs: seq<Leg>): (n: nat)
    ensures n <= |legs|
  {
    if legs == [] then 0
    else TakenCount(legs[..|legs| - 1]) + (if legs[|legs| - 1].phase == Taken then 1 else 0)
  }

  lemma {:induction false} TakenUpdate(legs: seq<Leg>, i: nat, leg: Leg)
    requires i < |legs|
    ensures TakenCount(legs[i := leg]) + (if legs[i].phase == Taken then 1 else 0)
         == TakenCount(legs) + (if leg.phase == Taken then 1 else 0)
  {
    var n := |legs| - 1;
    if i == n {
      assert legs[i := leg][..n] == legs[..n];
    } else {
      TakenUpdate(legs[..n], i, leg);
      assert legs[i := leg][..n] == legs[..n][i := leg];
    }
  }

  lemma {:induction false} TakenSame(a: seq<Leg>, b: seq<Leg>)
    requires |a| == |b| && forall j :: 0 <= j < |a| ==> a[j].phase == b[j].phase
    ensures TakenCount(a) == TakenCount(b)
  {
    if a != [] {
      TakenSame(a[..|a| - 1], b[..|b| - 1]);
    }
  }

  lemma {:induction false} SomeoneLeft(legs: seq<Leg>) returns (i: nat)
    requires TakenCount(legs) < |legs|
    ensures i < |legs| && legs[i].phase != Taken
  {
    var n := |legs| - 1;
    if legs[n].phase != Taken {
      i := n;
    } else {
      i := SomeoneLeft(legs[..n]);
    }
  }

  /** Whether leg `i` is the one returned. */
  predicate IsWinner(o: Outcome, i: int) {
    o.Winner? && o.idx == i
  }

  /** A leg's body: untouched until received, then handed over (the winner's) or closed (anyone else's), once. */
  predicate BodyBooks(leg: Leg, winner: bool) {
    if leg.phase != Taken then leg.closes == 0 && leg.hands == 0 && !winner
    else if !leg.hasBody then leg.closes == 0 && leg.hands == 0
    else if winner then leg.closes == 0 && leg.hands == 1
    else leg.closes == 1 && leg.hands == 0
  }

  /** A leg's context: live while it runs; after the return only the winner's, until its body is closed. */
  predicate ContextBooks(leg: Leg, o: Outcome, i: int) {
    match o
    case Looping => leg.cancelled <==> leg.phase == Taken
    case Winner(idx, bodyClosed) => leg.cancelled <==> (i != idx || bodyClosed)
    case NoWinner => leg.cancelled
    case ClientGone => leg.cancelled
  }

  ghost predicate Books(s: State) {
    forall i :: 0 <= i < |s.legs| ==>
      && BodyBooks(s.legs[i], IsWinner(s.outcome, i))
      && ContextBooks(s.legs[i], s.outcome, i)
      && (IsWinner(s.outcome, i) ==> s.legs[i].won)
      && ((s.outcome.Looping? || s.outcome.NoWinner?) && s.legs[i].phase == Taken ==> !s.legs[i].won)
  }

  ghost predicate Counts(s: State, c: Config) {
    && 1 <= |s.legs| <= c.max
    && (match s.outcome
        case Looping => s.reaping == 0 && s.received == TakenCount(s.legs)
        case Winner(idx, _) => idx < |s.legs| && s.reaping + TakenCount(s.legs) == |s.legs|
        case NoWinner => s.reaping == 0 && TakenCount(s.legs) == |s.legs| == c.max
        case ClientGone => s.reaping + TakenCount(s.legs) == |s.legs|)
  }

  /** While looping, a hedge still to come keeps the timer going; otherwise a result is still to come. */
  ghost predicate Awake(s: State, c: Config) {
    s.outcome.Looping? ==> if |s.legs| < c.max then s.timer != Stopped else s.received < |s.legs|
  }

  ghost predicate Inv(s: State, c: Config) {
    Books(s) && Counts(s, c) && Awake(s, c)
  }

  lemma LaunchCounts(legs: seq<Leg>)
    ensures TakenCount(legs + [FRESH_LEG]) == TakenCount(legs)
  {
    assert (legs + [FRESH_LEG])[..|legs|] == legs;
  }

  lemma WonKeeps(s: State, i: nat, c: Config)
    requires Inv(s, c) && Enabled(s, TakeResult(i)) && s.legs[i].won
    ensures Inv(Won(s, i), c)
  {
    var s' := Won(s, i);
    TakenSame(s.legs, CancelAllBut(s.legs, i));
    TakenUpdate(CancelAllBut(s.legs, i), i, s'.legs[i]);
  }

  lemma {:induction false} AllTaken(legs: seq<Leg>)
    requires TakenCount(legs) == |legs|
    ensures forall i :: 0 <= i < |legs| ==> legs[i].phase == Taken
  {
    if legs != [] {
      AllTaken(legs[..|legs| - 1]);
    }
  }

  /** The loser is drained and released; nothing else has changed yet. */
  lemma LoserBooked(s: State, i: nat, c: Config)
    requires Inv(s, c) && Enabled(s, TakeResult(i)) && !s.legs[i].won
    ensures var s1 := s.(legs := s.legs[i := Drained(s.legs[i].(cancelled := true))], received := s.received + 1);
            Books(s1) && Counts(s1, c)
  {
    TakenUpdate(s.legs, i, Drained(s.legs[i].(cancelled := true)));
  }

  lemma LostKeeps(s: State, i: nat, c: Config)
    requires Inv(s, c) && Enabled(s, TakeResult(i)) && !s.legs[i].won
    ensures Inv(Lost(s, i, c), c)
  {
    LoserBooked(s, i, c);
    var s1 := s.(legs := s.legs[i := Drained(s.legs[i].(cancelled := true))], received := s.received + 1);
    if s1.received == c.max {
      AllTaken(s1.legs);
    } else if c.hedgeOnError && |s1.legs| < c.max {
      LaunchedKeeps(s1, c);
    }
  }

  lemma LaunchedKeeps(s: State, c: Config)
    requires Usable(c) && Books(s) && Counts(s, c) && s.outcome.Looping? && |s.legs| < c.max && s.received < c.max
    ensures Inv(Launched(s, c), c)
  {
    LaunchCounts(s.legs);
  }

  lemma AnswerKeeps(s: State, i: nat, won: bool, hasBody: bool, c: Config)
    requires Inv(s, c) && Enabled(s, Answer(i, won, hasBody))
    ensures Inv(Apply(s, Answer(i, won, hasBody), c), c)
  {
    TakenUpdate(s.legs, i, s.legs[i].(phase := Answered, won := won, hasBody := hasBody));
  }

  lemma TickKeeps(s: State, c: Config)
    requires Inv(s, c) && Enabled(s, TakeTick)
    ensures Inv(Ticking(s, c), c)
  {
    LaunchCounts(s.legs);
  }

  lemma GoneKeeps(s: State, c: Config)
    requires Inv(s, c) && Enabled(s, TakeDone)
    ensures Inv(Gone(s), c)
  {
    TakenSame(s.legs, CancelAllBut(s.legs, -1));
  }

  lemma ReapKeeps(s: State, i: nat, c: Config)
    requires Inv(s, c) && Enabled(s, Reap(i))
    ensures Inv(Apply(s, Reap(i), c), c)
  {
    TakenUpdate(s.legs, i, Drained(s.legs[i]));
  }

  lemma CloseKeeps(s: State, c: Config)
    requires Inv(s, c) && Enabled(s, CloseBody)
    ensures Inv(Apply(s, CloseBody, c), c)
  {
    TakenSame(s.legs, Apply(s, CloseBody, c).legs);
  }

  lemma ApplyKeeps(s: State, e: Event, c: Config)
    requires Inv(s, c)
    ensures Inv(Apply(s, e, c), c)
  {
    if Enabled(s, e) {
      match e
      case Answer(i, won, hasBody) => AnswerKeeps(s, i, won, hasBody, c);
      case Fire =>
      case Leave =>
      case TakeResult(i) =>
        if s.legs[i].won {
          WonKeeps(s, i, c);
        } else {
          LostKeeps(s, i, c);
        }
      case TakeTick => TickKeeps(s, c);
      case TakeDone => GoneKeeps(s, c);
      case Reap(i) => ReapKeeps(s, i, c);
      case CloseBody => CloseKeeps(s, c);
    }
  }

  lemma {:induction false} RunKeeps(events: seq<Event>, c: Config)
    requires Usable(c)
    ensures Inv(Run(events, c), c)
  {
    if events == [] {
      assert TakenCount([FRESH_LEG]) == TakenCount([FRESH_LEG][..0]);
    } else {
      RunKeeps(events[..|events| - 1], c);
      ApplyKeeps(Run(events[..|events| - 1], c), events[|events| - 1], c);
    }
  }

  // ----- every run ends

  function LegWork(legs: seq<Leg>): nat {
    if legs == [] then 0
    else LegWork(legs[..|legs| - 1])
         + (match legs[|legs| - 1].phase case Running => 2 case Answered => 1 case Taken => 0)
  }

  lemma {:induction false} LegWorkUpdate(legs: seq<Leg>, i: nat, leg: Leg)
    requires i < |legs|
    ensures LegWork(legs[i := leg]) + LegWork([legs[i]]) == LegWork(legs) + LegWork([leg])
  {
    var n := |legs| - 1;
    assert [legs[i]][..0] == [] && [leg][..0] == [];
    if i == n {
      assert legs[i := leg][..n] == legs[..n];
    } else {
      LegWorkUpdate(legs[..n], i, leg);
      assert legs[i := leg][..n] == legs[..n][i := leg];
    }
  }

  lemma {:induction false} LegWorkSame(a: seq<Leg>, b: seq<Leg>)
    requires |a| == |b| && forall j :: 0 <= j < |a| ==> a[j].phase == b[j].phase
    ensures LegWork(a) == LegWork(b)
  {
    if a != [] {
      LegWorkSame(a[..|a| - 1], b[..|b| - 1]);
    }
  }

  lemma LegWorkLaunch(legs: seq<Leg>)
    ensures LegWork(legs + [FRESH_LEG]) == LegWork(legs) + 2
  {
    assert (legs + [FRESH_LEG])[..|legs|] == legs;
  }

  /** What is left to happen: every event that does anything makes it smaller. */
  function Work(s: State, c: Config): int {
    LegWork(s.legs) + 4 * (c.max - |s.legs|)
    + (match s.timer case Armed => 2 case Ticked => 1 case Stopped => 0)
    + (if s.clientLeft then 0 else 1)
    + (match s.outcome case Looping => 2 case Winner(_, closed) => (if closed then 0 else 1) case _ => 0)
  }

  lemma WonWorks(s: State, i: nat, c: Config)
    requires Inv(s, c) && Enabled(s, TakeResult(i))
    ensures Work(Won(s, i), c) < Work(s, c)
  {
    LegWorkSame(s.legs, CancelAllBut(s.legs, i));
    LegWorkUpdate(CancelAllBut(s.legs, i), i, Won(s, i).legs[i]);
  }

  lemma LostWorks(s: State, i: nat, c: Config)
    requires Inv(s, c) && Enabled(s, TakeResult(i))
    ensures Work(Lost(s, i, c), c) < Work(s, c)
  {
    var leg := Drained(s.legs[i].(cancelled := true));
    LegWorkUpdate(s.legs, i, leg);
    LegWorkLaunch(s.legs[i := leg]);
  }

  lemma EveryEventWorks(s: State, e: Event, c: Config)
    requires Inv(s, c) && Enabled(s, e)
    ensures Work(Apply(s, e, c), c) < Work(s, c)
  {
    match e
    case Answer(i, won, hasBody) => LegWorkUpdate(s.legs, i, Apply(s, e, c).legs[i]);
    case TakeResult(i) =>
      if s.legs[i].won {
        WonWorks(s, i, c);
      } else {
        LostWorks(s, i, c);
      }
    case TakeTick => LegWorkLaunch(s.legs);
    case TakeDone => LegWorkSame(s.legs, CancelAllBut(s.legs, -1));
    case Reap(i) => LegWorkUpdate(s.legs, i, Drained(s.legs[i]));
    case CloseBody => LegWorkSame(s.legs, Apply(s, e, c).legs);
    case _ =>
  }

  /** Every event of the run was ready when it was taken. */
  ghost predicate Effective(events: seq<Event>, c: Config) {
    forall k :: 0 <= k < |events| ==> Enabled(Run(events[..k], c), events[k])
  }

  // ----- main results

  /** At most MaxHedge + 1 legs start, and the loop never waits with nothing to wait for. */
  lemma NeverAsleep(events: seq<Event>, c: Config)
    requires Usable(c)
    ensures var s := Run(events, c);
            && |s.legs| <= c.max
            && (s.outcome.Looping? ==> s.timer != Stopped || exists i :: 0 <= i < |s.legs| && s.legs[i].phase != Taken)
  {
    RunKeeps(events, c);
    var s := Run(events, c);
    if s.outcome.Looping? && s.timer == Stopped {
      var i := SomeoneLeft(s.legs);
    }
  }

  /** Everything is over: the call returned, every leg was received and the caller closed what it was given. */
  ghost predicate Settled(s: State) {
    && !s.outcome.Looping?
    && (forall i :: 0 <= i < |s.legs| ==> s.legs[i].phase == Taken)
    && (s.outcome.Winner? ==> s.outcome.bodyClosed)
  }

  /** Until then something can always happen, without waiting for the client to leave. */
  lemma AlwaysProgress(events: seq<Event>, c: Config) returns (e: Event)
    requires Usable(c) && !Settled(Run(events, c))
    ensures Enabled(Run(events, c), e) && e != Leave
  {
    RunKeeps(events, c);
    var s := Run(events, c);
    if TakenCount(s.legs) < |s.legs| {
      var i := SomeoneLeft(s.legs);
      e := if s.legs[i].phase == Running then Answer(i, false, false)
           else if s.outcome.Looping? then TakeResult(i) else Reap(i);
    } else if s.outcome.Looping? {
      e := if s.timer == Armed then Fire else TakeTick;
    } else {
      AllTaken(s.legs);
      e := CloseBody;
    }
  }

  /** And never for long: a run in which every event does something has at most 4*MaxHedge + 7 of them. */
  lemma {:induction false} RunsAreShort(events: seq<Event>, c: Config)
    requires Usable(c) && Effective(events, c)
    ensures |events| + Work(Run(events, c), c) <= 4 * c.max + 3
    ensures |events| <= 4 * c.max + 3
  {
    if events == [] {
      assert LegWork([FRESH_LEG]) == LegWork([FRESH_LEG][..0]) + 2;
    } else {
      var before := events[..|events| - 1];
      forall k | 0 <= k < |before|
        ensures Enabled(Run(before[..k], c), before[k])
      {
        assert before[..k] == events[..k];
      }
      RunsAreShort(before, c);
      RunKeeps(before, c);
      EveryEventWorks(Run(before, c), events[|events| - 1], c);
    }
    RunKeeps(events, c);
  }

  /**
   At any time, each leg's body has been handed to the caller or closed at most once and never both; only
   the returned winner's is handed over.  Once settled, every body has been exactly one of the two.
   */
  lemma BodiesConserved(events: seq<Event>, c: Config, i: nat)
    requires Usable(c) && i < |Run(events, c).legs|
    ensures var s := Run(events, c);
            var leg := s.legs[i];
            && leg.closes + leg.hands <= 1
            && (leg.hands == 1 ==> IsWinner(s.outcome, i))
            && (Settled(s) && leg.hasBody ==> leg.closes + leg.hands == 1)
            && (Settled(s) && leg.hasBody && IsWinner(s.outcome, i) ==> leg.hands == 1)
            && (!leg.hasBody ==> leg.closes == 0 && leg.hands == 0)
  {
    RunKeeps(events, c);
  }

  /** A leg is launched exactly at a tick, or at a lost result when hedging on errors is on, while attempts
      are left; the timer then runs on exactly if more remain. */
  lemma LaunchesIff(events: seq<Event>, c: Config, e: Event)
    requires Usable(c) && Enabled(Run(events, c), e)
    ensures var s := Run(events, c);
            var s' := Apply(s, e, c);
            var launches := |s.legs| < c.max && (e.TakeTick? || (e.TakeResult? && !s.legs[e.i].won && c.hedgeOnError));
            && |s'.legs| == |s.legs| + (if launches then 1 else 0)
            && (launches ==> !s'.legs[|s.legs|].cancelled && s'.legs[|s.legs|].phase == Running)
            && (launches ==> s'.timer == if |s'.legs| < c.max then Armed else Stopped)
  {
    RunKeeps(events, c);
    var s := Run(events, c);
    if e.TakeResult? && !s.legs[e.i].won {
      NotAllReceived(s, e.i);
    }
  }

  /** A result still in the channel is not counted as received. */
  lemma NotAllReceived(s: State, i: nat)
    requires i < |s.legs| && s.legs[i].phase != Taken
    ensures TakenCount(s.legs) < |s.legs|
  {
    TakenAtMost(s.legs);
    if TakenCount(s.legs) == |s.legs| {
      AllTaken(s.legs);
    }
  }

  lemma {:induction false} TakenAtMost(legs: seq<Leg>)
    ensures TakenCount(legs) <= |legs|
  {
    if legs != [] {
      TakenAtMost(legs[..|legs| - 1]);
    }
  }

  /** The call ends exactly with a winning result, with the last result when none won, or with the client. */
  lemma EndsIff(events: seq<Event>, c: Config, e: Event)
    requires Usable(c) && Enabled(Run(events, c), e) && Run(events, c).outcome.Looping?
    ensures var s := Run(events, c);
            Apply(s, e, c).outcome
            == if e.TakeResult? && s.legs[e.i].won then Winner(e.i, !s.legs[e.i].hasBody)
               else if e.TakeResult? && TakenCount(s.legs) + 1 == c.max then NoWinner
               else if e.TakeDone? then ClientGone
               else Looping
  {
    RunKeeps(events, c);
  }

  /** A leg's context is a child of the request's: the supervisor cancels it, or it ends with the client's. */
  predicate ContextOver(s: State, i: nat)
    requires i < |s.legs|
  {
    s.legs[i].cancelled || s.clientLeft
  }

  /** At the return every other leg is cancelled.  The winner's context lasts exactly until its body is
      closed (at once if it has none) or the client leaves; the supervisor itself cancels it only at the close. */
  lemma ContextsReleased(events: seq<Event>, c: Config, i: nat)
    requires Usable(c) && i < |Run(events, c).legs|
    ensures var s := Run(events, c);
            && (!s.outcome.Looping? && !IsWinner(s.outcome, i) ==> s.legs[i].cancelled)
            && (IsWinner(s.outcome, i) ==> (s.legs[i].cancelled <==> s.outcome.bodyClosed))
            && (IsWinner(s.outcome, i) ==> (ContextOver(s, i) <==> s.outcome.bodyClosed || s.clientLeft))
            && (s.outcome.Looping? ==> (s.legs[i].cancelled <==> s.legs[i].phase == Taken))
            && (Settled(s) ==> s.legs[i].cancelled)
  {
    RunKeeps(events, c);
  }

  /** The call gives up only after all MaxHedge + 1 attempts answered and none won; it returns only a leg that won. */
  lemma GivesUpLast(events: seq<Event>, c: Config)
    requires Usable(c)
    ensures var s := Run(events, c);
            && (s.outcome.NoWinner? ==>
                  |s.legs| == c.max && forall i :: 0 <= i < c.max ==> s.legs[i].phase == Taken && !s.legs[i].won)
            && (s.outcome.Winner? ==> s.outcome.idx < |s.legs| && s.legs[s.outcome.idx].won)
  {
    RunKeeps(events, c);
    if Run(events, c).outcome.NoWinner? {
      AllTaken(Run(events, c).legs);
    }
  }
}
