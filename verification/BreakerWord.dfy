/**
 The 64-bit word that carries a breaker's generation, probe count and state:
 gen<<24 | probes<<2 | state.  The protocol of BreakerProtocol works on the triple; here the
 same protocol is run on the packed word, with `v + 4` and `v - 4` for the probe count and with
 compare-and-swap comparing packed words, and is shown to be the same machine.
 */
module BreakerWord {
  import opened BreakerProtocol

  const PROBE_ONE := 4
  const GEN_ONE := 0x100_0000
  const MAX_PROBES := 0x3F_FFFF

  function Code(phase: Phase): nat {
    match phase
    case Closed => 0
    case Open => 1
    case HalfOpen => 2
  }

  /** Shifts by 24 and 2 bits; the fields do not overlap, so `or` is addition. */
  function Pack(gen: nat, probes: nat, phase: Phase): nat {
    gen * GEN_ONE + probes * PROBE_ONE + Code(phase)
  }

  /** Shifts and masks back; admit treats every state code but 0 and 1 as half-open. */
  function Unpack(v: nat): Word {
    Word(v / GEN_ONE, v % GEN_ONE / PROBE_ONE,
         if v % PROBE_ONE == 0 then Closed else if v % PROBE_ONE == 1 then Open else HalfOpen)
  }

  function Packed(w: Word): nat {
    Pack(w.gen, w.probes, w.phase)
  }

  /** Unpacking undoes packing exactly when the probe count fits its 22 bits. */
  lemma UnpackPack(w: Word)
    ensures Unpack(Packed(w)) == w <==> w.probes < 0x40_0000
  {
    Fields(w.gen, w.probes, Code(w.phase), Packed(w));
    ProbesFit(Packed(w) % GEN_ONE);
  }

  lemma Fields(gen: nat, probes: nat, code: nat, v: nat)
    requires code < PROBE_ONE && v == gen * GEN_ONE + probes * PROBE_ONE + code
    ensures v % PROBE_ONE == code
    ensures probes <= MAX_PROBES ==> v / GEN_ONE == gen && v % GEN_ONE / PROBE_ONE == probes
  {
    assert v == PROBE_ONE * (gen * 0x40_0000 + probes) + code;
    if probes <= MAX_PROBES {
      var low := probes * PROBE_ONE + code;
      assert v / GEN_ONE == gen && v % GEN_ONE == low;
      assert low / PROBE_ONE == probes;
    }
  }

  lemma ProbesFit(low: nat)
    requires low < GEN_ONE
    ensures low / PROBE_ONE <= MAX_PROBES
  {
  }

  /** The word fits 64 bits, with room to spare, exactly while the generation fits 32. */
  lemma FitsTheWord(w: Word)
    requires w.probes <= MAX_PROBES
    ensures Packed(w) < 0x100_0000_0000_0000 <==> w.gen < 0x1_0000_0000
  {
  }

  // ----- the protocol on the packed word

  datatype Machine = Machine(word: nat, threads: map<nat, Pc>, log: seq<Edge>)

  /** The machine as the protocol sees it. */
  function Seen(m: Machine): State {
    State(Unpack(m.word), m.threads, m.log)
  }

  function Moved(m: Machine, t: nat, word: nat, pc: Pc): Machine {
    m.(word := word, threads := m.threads[t := pc])
  }

  function Committed(m: Machine, t: nat, gen: nat, from: Phase, next: Phase, caller: Caller): Machine {
    Machine(Pack(gen + 1, 0, next), m.threads[t := Hook(caller)], m.log + [Edge(gen, from, next, caller)])
  }

  function PackedCas(m: Machine, t: nat): Machine {
    match At(Seen(m), t)
    case FlipCas(v) =>
      if m.word == Packed(v) then Committed(m, t, v.gen, Open, HalfOpen, ByFlip) else Moved(m, t, m.word, AdmitLoad)
    case ClaimCas(v) =>
      if m.word == Packed(v) then Moved(m, t, m.word + PROBE_ONE, Serving(Probe(v.gen)))
      else Moved(m, t, m.word, AdmitLoad)
    case MoveCas(v, gen, from, next, caller) =>
      if m.word == Packed(v) then Committed(m, t, gen, from, next, caller)
      else Moved(m, t, m.word, MoveLoad(gen, from, next, caller))
    case ReleaseCas(v, gen) =>
      if m.word == Packed(v) && m.word >= PROBE_ONE then Moved(m, t, m.word - PROBE_ONE, Idle)
      else Moved(m, t, m.word, ReleaseLoad(gen))
    case _ => m
  }

  /** Loads unpack the word; only a compare-and-swap writes it. */
  function PackedApply(m: Machine, a: Action, max: nat): Machine {
    if a.Cas? then PackedCas(m, a.t)
    else m.(threads := Apply(Seen(m), a, max).threads)
  }

  function PackedRun(schedule: seq<Action>, max: nat): Machine {
    if schedule == [] then Machine(0, map[], [])
    else PackedApply(PackedRun(schedule[..|schedule| - 1], max), schedule[|schedule| - 1], max)
  }

  ghost predicate Carries(m: Machine, s: State) {
    m.word == Packed(s.word) && m.threads == s.threads && m.log == s.log
  }

  lemma SameCas(m: Machine, s: State, t: nat, max: nat)
    requires max <= MAX_PROBES && Inv(s, max) && Carries(m, s)
    ensures Carries(PackedCas(m, t), CasStep(s, t))
  {
    UnpackPack(s.word);
    var pc := At(s, t);
    assert t in s.threads ==> Sane(pc, max);
    if pc.FlipCas? || pc.ClaimCas? || pc.MoveCas? || pc.ReleaseCas? {
      UnpackPack(pc.v);
    }
  }

  lemma SameStep(m: Machine, s: State, a: Action, max: nat)
    requires max <= MAX_PROBES && Inv(s, max) && Carries(m, s)
    ensures Carries(PackedApply(m, a, max), Apply(s, a, max))
  {
    UnpackPack(s.word);
    if a.Cas? {
      SameCas(m, s, a.t, max);
    }
  }

  /** Every schedule leaves the packed machine carrying exactly the protocol's state. */
  lemma {:induction false} PackedRefinesProtocol(schedule: seq<Action>, max: nat)
    requires max <= MAX_PROBES
    ensures Carries(PackedRun(schedule, max), Run(schedule, max))
    ensures Seen(PackedRun(schedule, max)) == Run(schedule, max)
  {
    RunKeeps(schedule, max);
    UnpackPack(Run(schedule, max).word);
    if schedule != [] {
      var before, a := schedule[..|schedule| - 1], schedule[|schedule| - 1];
      PackedRefinesProtocol(before, max);
      RunKeeps(before, max);
      SameStep(PackedRun(before, max), Run(before, max), a, max);
    }
  }
}
