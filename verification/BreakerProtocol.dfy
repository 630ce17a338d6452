/**
 The circuit breaker of one target as an interleaving of its atomic steps.

 Every Load and every CompareAndSwap of the packed word is one step, taken by any of any number
 of threads, in any order.  The satellite counters (cooldown deadline, dwell start, success and
 failure counts) only choose branches, so their readings are inputs of the step: what is proved
 holds whatever the satellites hold.
 */
module BreakerProtocol {
  import opened Counting

  datatype Phase = Closed | Open | HalfOpen

  /** The unpacked word: generation, in-flight probes, state. */
  datatype Word = Word(gen: nat, probes: nat, phase: Phase)

  datatype Admission = Routed | Probe(gen: nat)

  /** Who runs a transition; an edge of the log remembers it. */
  datatype Caller = ByFlip | ByReclaim | ByTrip | ByProbe(gen: nat)

  datatype Pc =
    | Idle
    | AdmitLoad                                  // admit: about to load the word
    | FlipCas(v: Word)                           // admit: open, cooldown over
    | ClaimCas(v: Word)                          // admit: half-open, a slot is free
    | Serving(adm: Admission)                    // the upstream round trip
    | TripLoad                                   // record: routed failure at the threshold
    | MoveLoad(gen: nat, from: Phase, next: Phase, caller: Caller)           // transition
    | MoveCas(v: Word, gen: nat, from: Phase, next: Phase, caller: Caller)   // transition
    | Hook(caller: Caller)                       // OnStateChange, after a won CAS
    | ReleaseLoad(gen: nat)                      // releaseProbe
    | ReleaseCas(v: Word, gen: nat)              // releaseProbe

  /** One committed state change: the generation left, the edge taken and who took it. */
  datatype Edge = Edge(gen: nat, from: Phase, to: Phase, who: Caller)

  datatype State = State(word: Word, threads: map<nat, Pc>, log: seq<Edge>)

  /** What a thread does when scheduled.  `flag` is the satellite reading that picks the branch. */
  datatype Action =
    | Arrive(t: nat)
    | Load(t: nat, flag: bool)
    | Cas(t: nat)
    | Answer(t: nat, failed: bool, atThreshold: bool)
    | Panic(t: nat)
    | HookReturns(t: nat)

  function At(s: State, t: nat): Pc {
    if t in s.threads then s.threads[t] else Idle
  }

  function Go(s: State, t: nat, pc: Pc): State {
    s.(threads := s.threads[t := pc])
  }

  /** Where a transition resumes when it returns without having moved the word. */
  function Resume(caller: Caller): Pc {
    if caller == ByReclaim || caller == ByFlip then AdmitLoad else Idle
  }

  function LoadStep(s: State, t: nat, flag: bool, max: nat): State {
    var v := s.word;
    match At(s, t)
    case AdmitLoad =>
      (match v.phase
       case Closed => Go(s, t, Serving(Routed))
       case Open => Go(s, t, if flag then Idle else FlipCas(v))          // flag: still cooling
       case HalfOpen =>
         if v.probes >= max then
           Go(s, t, if flag then MoveLoad(v.gen, HalfOpen, Open, ByReclaim) else Idle)  // flag: overstayed
         else Go(s, t, ClaimCas(v)))
    case TripLoad =>
      Go(s, t, if v.phase == Closed then MoveLoad(v.gen, Closed, Open, ByTrip) else Idle)
    case MoveLoad(gen, from, next, caller) =>
      Go(s, t, if v.gen != gen || v.phase != from then Resume(caller)
               else MoveCas(v, gen, from, next, caller))
    case ReleaseLoad(gen) =>
      Go(s, t, if v.gen != gen || v.phase != HalfOpen || v.probes == 0 then Idle else ReleaseCas(v, gen))
    case _ => s
  }

  /** The word moves to the next generation and the edge is logged. */
  function Commit(s: State, t: nat, gen: nat, from: Phase, next: Phase, caller: Caller): State {
    State(Word(gen + 1, 0, next), s.threads[t := Hook(caller)], s.log + [Edge(gen, from, next, caller)])
  }

  function CasStep(s: State, t: nat): State {
    match At(s, t)
    case FlipCas(v) =>
      if s.word == v then Commit(s, t, v.gen, Open, HalfOpen, ByFlip) else Go(s, t, AdmitLoad)
    case ClaimCas(v) =>
      if s.word == v then Go(s.(word := v.(probes := v.probes + 1)), t, Serving(Probe(v.gen)))
      else Go(s, t, AdmitLoad)
    case MoveCas(v, gen, from, next, caller) =>
      if s.word == v then Commit(s, t, gen, from, next, caller) else Go(s, t, MoveLoad(gen, from, next, caller))
    case ReleaseCas(v, gen) =>
      if s.word == v && v.probes > 0 then Go(s.(word := v.(probes := v.probes - 1)), t, Idle)
      else Go(s, t, ReleaseLoad(gen))
    case _ => s
  }

  /** record: the round trip returned and its result was classified. */
  function AnswerStep(s: State, t: nat, failed: bool, atThreshold: bool): State {
    match At(s, t)
    case Serving(Routed) => Go(s, t, if failed && atThreshold then TripLoad else Idle)
    case Serving(Probe(g)) =>
      Go(s, t, if failed then MoveLoad(g, HalfOpen, Open, ByProbe(g))
               else if atThreshold then MoveLoad(g, HalfOpen, Closed, ByProbe(g))
               else ReleaseLoad(g))
    case _ => s
  }

  /** The transport, IsFailure or OnStateChange panicked: a probe's deferred release runs. */
  function PanicStep(s: State, t: nat): State {
    match At(s, t)
    case Serving(Routed) => Go(s, t, Idle)
    case Serving(Probe(g)) => Go(s, t, ReleaseLoad(g))
    case Hook(ByProbe(g)) => Go(s, t, ReleaseLoad(g))
    case Hook(_) => Go(s, t, Idle)
    case _ => s
  }

  function Apply(s: State, a: Action, max: nat): State {
    match a
    case Arrive(t) => if At(s, t).Idle? then Go(s, t, AdmitLoad) else s
    case Load(t, flag) => LoadStep(s, t, flag, max)
    case Cas(t) => CasStep(s, t)
    case Answer(t, failed, atThreshold) => AnswerStep(s, t, failed, atThreshold)
    case Panic(t) => PanicStep(s, t)
    case HookReturns(t) => if At(s, t).Hook? then Go(s, t, Resume(At(s, t).caller)) else s
  }

  const START := State(Word(0, 0, Closed), map[], [])

  /** The state after any finite schedule of steps. */
  function Run(schedule: seq<Action>, max: nat): State {
    if schedule == [] then START
    else Apply(Run(schedule[..|schedule| - 1], max), schedule[|schedule| - 1], max)
  }

  // ----- the invariant

  /** The generation stamped on the probe slot this thread still answers for, or -1. */
  function Stamp(pc: Pc): int {
    match pc
    case Serving(Probe(g)) => g
    case MoveLoad(_, _, _, ByProbe(g)) => g
    case MoveCas(_, _, _, _, ByProbe(g)) => g
    case ReleaseLoad(g) => g
    case ReleaseCas(_, g) => g
    case _ => -1
  }

  /** The thread holds a probe slot stamped `g`. */
  predicate Holds(pc: Pc, g: nat) {
    Stamp(pc) == g
  }

  function Outstanding(s: State, g: nat): set<nat> {
    set t | t in s.threads && Holds(s.threads[t], g)
  }

  /** The callers of transition and the edges they ask for. */
  predicate Legal(gen: nat, from: Phase, next: Phase, caller: Caller) {
    match caller
    case ByFlip => from == Open && next == HalfOpen
    case ByReclaim => from == HalfOpen && next == Open
    case ByTrip => from == Closed && next == Open
    case ByProbe(g) => g == gen && from == HalfOpen && next != HalfOpen
  }

  /** What a thread's local state says about the word it loaded. */
  predicate Sane(pc: Pc, max: nat) {
    match pc
    case FlipCas(v) => v.phase == Open && v.probes <= max
    case ClaimCas(v) => v.phase == HalfOpen && v.probes < max
    case MoveLoad(gen, from, next, caller) => Legal(gen, from, next, caller)
    case MoveCas(v, gen, from, next, caller) =>
      Legal(gen, from, next, caller) && v.gen == gen && v.phase == from && v.probes <= max
    case ReleaseCas(v, gen) => v.gen == gen && v.phase == HalfOpen && 0 < v.probes <= max
    case _ => true
  }

  /** Stamps are never from the future, and the current generation is stamped only while half-open. */
  ghost predicate Dated(pc: Pc, w: Word) {
    && (Stamp(pc) < w.gen || (Stamp(pc) == w.gen && w.phase == HalfOpen))
    && (pc.Hook? && pc.caller.ByProbe? ==> pc.caller.gen < w.gen)
  }

  ghost predicate Threads(s: State, max: nat) {
    forall t :: t in s.threads ==> Sane(s.threads[t], max) && Dated(s.threads[t], s.word)
  }

  ghost predicate Slots(s: State, max: nat) {
    && s.word.probes <= max
    && s.word.probes == (if s.word.phase == HalfOpen then |Outstanding(s, s.word.gen)| else 0)
  }

  /** The log is the whole history: edge number g leaves generation g, and edges chain. */
  ghost predicate Chained(s: State) {
    && |s.log| == s.word.gen
    && (forall i :: 0 <= i < |s.log| ==> s.log[i].gen == i && Legal(i, s.log[i].from, s.log[i].to, s.log[i].who))
    && (forall i :: 0 < i < |s.log| ==> s.log[i].from == s.log[i - 1].to)
    && (s.log != [] ==> s.log[0].from == Closed)
    && s.word.phase == (if s.log == [] then Closed else s.log[|s.log| - 1].to)
  }

  ghost predicate Inv(s: State, max: nat) {
    Threads(s, max) && Slots(s, max) && Chained(s)
  }

  // ----- every step keeps it

  /** Moving one thread without touching the word: the count follows that thread alone. */
  lemma GoKeeps(s: State, t: nat, pc: Pc, max: nat)
    requires Inv(s, max)
    requires Sane(pc, max) && Dated(pc, s.word)
    requires s.word.phase == HalfOpen ==> Holds(pc, s.word.gen) == Holds(At(s, t), s.word.gen)
    ensures Inv(Go(s, t, pc), max)
  {
    var g := s.word.gen;
    var s' := Go(s, t, pc);
    assert Outstanding(s', g) - {t} == Outstanding(s, g) - {t};
    OneMember(Outstanding(s, g), Outstanding(s', g), t);
  }

  /** A transition: the generation moves on, so no live stamp matches it. */
  lemma CommitKeeps(s: State, t: nat, from: Phase, next: Phase, caller: Caller, max: nat)
    requires Inv(s, max)
    requires s.word.phase == from && Legal(s.word.gen, from, next, caller)
    ensures Inv(Commit(s, t, s.word.gen, from, next, caller), max)
  {
    var s' := Commit(s, t, s.word.gen, from, next, caller);
    forall u | u in s'.threads
      ensures Sane(s'.threads[u], max) && Dated(s'.threads[u], s'.word)
      ensures !Holds(s'.threads[u], s'.word.gen)
    {
      if u != t {
        assert Dated(s.threads[u], s.word);
      }
    }
    assert Outstanding(s', s'.word.gen) == {};
  }

  lemma ClaimKeeps(s: State, t: nat, max: nat)
    requires Inv(s, max)
    requires At(s, t) == ClaimCas(s.word)
    ensures Inv(CasStep(s, t), max)
  {
    var s', g := CasStep(s, t), s.word.gen;
    assert t in s.threads && Sane(s.threads[t], max);
    assert Outstanding(s', g) - {t} == Outstanding(s, g) - {t};
    OneMember(Outstanding(s, g), Outstanding(s', g), t);
    assert t in Outstanding(s', g);
    ThreadsFollow(s, s', t, max);
  }

  lemma ReleaseKeeps(s: State, t: nat, max: nat)
    requires Inv(s, max)
    requires At(s, t) == ReleaseCas(s.word, s.word.gen)
    ensures Inv(CasStep(s, t), max)
  {
    var s', g := CasStep(s, t), s.word.gen;
    assert t in s.threads && Sane(s.threads[t], max);
    assert Outstanding(s', g) - {t} == Outstanding(s, g) - {t};
    OneMember(Outstanding(s, g), Outstanding(s', g), t);
    assert t in Outstanding(s, g);
    ThreadsFollow(s, s', t, max);
  }

  /** Changing only the probes field leaves every other thread's stamp as it was. */
  lemma ThreadsFollow(s: State, s': State, t: nat, max: nat)
    requires Threads(s, max)
    requires s'.word.gen == s.word.gen && s'.word.phase == s.word.phase
    requires t in s'.threads && s'.threads == s.threads[t := s'.threads[t]]
    requires Sane(s'.threads[t], max) && Dated(s'.threads[t], s'.word)
    ensures Threads(s', max)
  {
    forall u | u in s'.threads
      ensures Sane(s'.threads[u], max) && Dated(s'.threads[u], s'.word)
    {
      if u != t {
        assert Dated(s.threads[u], s.word);
      }
    }
  }

  lemma LoadKeeps(s: State, t: nat, flag: bool, max: nat)
    requires Inv(s, max)
    ensures Inv(LoadStep(s, t, flag, max), max)
  {
    var s' := LoadStep(s, t, flag, max);
    var pc := At(s, t);
    if s' != s {
      assert t in s.threads && Sane(pc, max) && Dated(pc, s.word);
      var g := s.word.gen;
      if pc.ReleaseLoad? && pc.gen == g && s.word.phase == HalfOpen {
        assert Holds(pc, g) && t in Outstanding(s, g);
        MemberCounts(Outstanding(s, g), t);
      }
      assert s' == Go(s, t, At(s', t));
      GoKeeps(s, t, At(s', t), max);
    }
  }

  lemma CasKeeps(s: State, t: nat, max: nat)
    requires Inv(s, max)
    ensures Inv(CasStep(s, t), max)
  {
    var pc := At(s, t);
    assert t in s.threads ==> Sane(pc, max) && Dated(pc, s.word);
    match pc
    case FlipCas(v) =>
      if s.word == v {
        CommitKeeps(s, t, Open, HalfOpen, ByFlip, max);
      } else {
        GoKeeps(s, t, AdmitLoad, max);
      }
    case ClaimCas(v) =>
      if s.word == v {
        ClaimKeeps(s, t, max);
      } else {
        GoKeeps(s, t, AdmitLoad, max);
      }
    case MoveCas(v, gen, from, next, caller) =>
      if s.word == v {
        CommitKeeps(s, t, from, next, caller, max);
      } else {
        GoKeeps(s, t, MoveLoad(gen, from, next, caller), max);
      }
    case ReleaseCas(v, gen) =>
      if s.word == v {
        ReleaseKeeps(s, t, max);
      } else {
        GoKeeps(s, t, ReleaseLoad(gen), max);
      }
    case _ =>
  }

  lemma AnswerKeeps(s: State, t: nat, failed: bool, atThreshold: bool, max: nat)
    requires Inv(s, max)
    ensures Inv(AnswerStep(s, t, failed, atThreshold), max)
  {
    var s' := AnswerStep(s, t, failed, atThreshold);
    if s' != s {
      assert Dated(s.threads[t], s.word);
      GoKeeps(s, t, At(s', t), max);
    }
  }

  lemma PanicKeeps(s: State, t: nat, max: nat)
    requires Inv(s, max)
    ensures Inv(PanicStep(s, t), max)
  {
    var s' := PanicStep(s, t);
    if s' != s {
      assert Dated(s.threads[t], s.word);
      GoKeeps(s, t, At(s', t), max);
    }
  }

  lemma ApplyKeeps(s: State, a: Action, max: nat)
    requires Inv(s, max)
    ensures Inv(Apply(s, a, max), max)
  {
    match a
    case Arrive(t) =>
      if At(s, t).Idle? {
        GoKeeps(s, t, AdmitLoad, max);
      }
    case Load(t, flag) => LoadKeeps(s, t, flag, max);
    case Cas(t) => CasKeeps(s, t, max);
    case Answer(t, failed, atThreshold) => AnswerKeeps(s, t, failed, atThreshold, max);
    case Panic(t) => PanicKeeps(s, t, max);
    case HookReturns(t) =>
      if At(s, t).Hook? {
        GoKeeps(s, t, Resume(At(s, t).caller), max);
      }
  }

  lemma {:induction false} RunKeeps(schedule: seq<Action>, max: nat)
    ensures Inv(Run(schedule, max), max)
  {
    if schedule == [] {
      assert Outstanding(START, 0) == {};
    } else {
      RunKeeps(schedule[..|schedule| - 1], max);
      ApplyKeeps(Run(schedule[..|schedule| - 1], max), schedule[|schedule| - 1], max);
    }
  }

  // ----- main results

  /** While half-open the probes field is the number of outstanding probes of this generation. */
  lemma ProbeCapHolds(schedule: seq<Action>, max: nat)
    ensures var s := Run(schedule, max);
            && s.word.probes <= max
            && (s.word.phase == HalfOpen ==> s.word.probes == |Outstanding(s, s.word.gen)|)
            && (s.word.phase != HalfOpen ==> s.word.probes == 0 && Outstanding(s, s.word.gen) == {})
  {
    RunKeeps(schedule, max);
    var s := Run(schedule, max);
    if s.word.phase != HalfOpen {
      forall t | t in s.threads
        ensures !Holds(s.threads[t], s.word.gen)
      {
        assert Dated(s.threads[t], s.word);
      }
    }
  }

  /** A probe stamped with an older generation never changes the word again, whatever it does. */
  lemma StaleProbeIsInert(schedule: seq<Action>, a: Action, g: nat, max: nat)
    requires var s := Run(schedule, max); Holds(At(s, a.t), g) && g != s.word.gen
    ensures Run(schedule + [a], max).word == Run(schedule, max).word
    ensures Run(schedule + [a], max).log == Run(schedule, max).log
  {
    RunKeeps(schedule, max);
    var s := Run(schedule, max);
    assert (schedule + [a])[..|schedule|] == schedule;
    assert Sane(s.threads[a.t], max);
  }

  /** The history: one edge per generation, chained, each legal for whoever committed it. */
  lemma EveryGenerationLeftOnce(schedule: seq<Action>, max: nat)
    ensures var s := Run(schedule, max);
            && |s.log| == s.word.gen
            && (forall i :: 0 <= i < |s.log| ==> s.log[i].gen == i)
            && (forall i :: 0 < i < |s.log| ==> s.log[i].from == s.log[i - 1].to)
            && (s.log != [] ==> s.log[0].from == Closed && s.log[|s.log| - 1].to == s.word.phase)
  {
    RunKeeps(schedule, max);
  }

  /** Only four edges occur, and a target heals only at the hand of a probe of that generation. */
  lemma OnlyFourEdges(schedule: seq<Action>, max: nat, i: nat)
    requires i < |Run(schedule, max).log|
    ensures var e := Run(schedule, max).log[i];
            && (e.from, e.to) in {(Closed, Open), (Open, HalfOpen), (HalfOpen, Open), (HalfOpen, Closed)}
            && (e.to == Closed ==> e.who == ByProbe(e.gen))
            && (e.from == Closed <==> e.who == ByTrip)
            && (e.from == Open <==> e.who == ByFlip)
  {
    RunKeeps(schedule, max);
  }

  /** A schedule in which one thread runs alone for three steps. */
  function Alone(s: State, first: Action, t: nat, max: nat): State {
    Apply(Apply(Apply(s, first, max), Load(t, false), max), Cas(t), max)
  }

  /**
   Left undisturbed, a probe of the current generation settles its slot: a failure re-opens, a
   threshold success closes, any other success gives exactly this slot back.
   */
  lemma ProbeSettles(s: State, t: nat, failed: bool, atThreshold: bool, max: nat)
    requires Inv(s, max) && At(s, t) == Serving(Probe(s.word.gen))
    ensures var w := Alone(s, Answer(t, failed, atThreshold), t, max).word;
            if failed then w == Word(s.word.gen + 1, 0, Open)
            else if atThreshold then w == Word(s.word.gen + 1, 0, Closed)
            else s.word == w.(probes := w.probes + 1)
  {
    assert Dated(s.threads[t], s.word);
    assert t in Outstanding(s, s.word.gen);
    MemberCounts(Outstanding(s, s.word.gen), t);
  }

  /** A panicking round trip gives its slot back too, so it cannot wedge the target half-open. */
  lemma PanickingProbeSettles(s: State, t: nat, max: nat)
    requires Inv(s, max) && At(s, t) == Serving(Probe(s.word.gen))
    ensures var s' := Alone(s, Panic(t), t, max);
            s.word == s'.word.(probes := s'.word.probes + 1) && At(s', t) == Idle
  {
    assert Dated(s.threads[t], s.word);
    assert t in Outstanding(s, s.word.gen);
    MemberCounts(Outstanding(s, s.word.gen), t);
  }

  /** Left undisturbed, a picker is admitted exactly when closed or when a half-open slot is free. */
  lemma PickerSettles(s: State, t: nat, max: nat)
    requires Inv(s, max) && At(s, t) == Idle
    ensures var s' := Alone(s, Arrive(t), t, max);
            match s.word.phase
            case Closed => s'.word == s.word && At(s', t) == Serving(Routed)
            case Open => s'.word == Word(s.word.gen + 1, 0, HalfOpen) && At(s', t) == Hook(ByFlip)
            case HalfOpen =>
              if s.word.probes < max
              then s'.word == s.word.(probes := s.word.probes + 1) && At(s', t) == Serving(Probe(s.word.gen))
              else s'.word == s.word && At(s', t) == Idle
  {
  }

  /** The generation never goes back and the log only grows. */
  lemma HistoryOnlyGrows(s: State, a: Action, max: nat)
    requires Inv(s, max)
    ensures s.log <= Apply(s, a, max).log
    ensures Apply(s, a, max).word.gen <= s.word.gen + 1
    ensures Apply(s, a, max).word.gen == s.word.gen <==> Apply(s, a, max).log == s.log
  {
    ApplyKeeps(s, a, max);
  }
}
