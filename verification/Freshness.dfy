/**
 How a stored response may be served, and what a purge does to it for good.
 */
module Freshness {
  import opened Purge
  import opened PurgeLog

  /** Times are nanoseconds; the two windows are durations the origin offered, or 0. */
  datatype Meta = Meta(created: int, freshUntil: int, staleWhileRevalidate: int, staleIfError: int, tags: seq<string>)

  datatype Service = Expired | Fresh | StaleRevalidate | StaleIfError

  function ByTime(m: Meta, now: int): Service {
    if now <= m.freshUntil then Fresh
    else if m.staleWhileRevalidate > 0 && now < m.freshUntil + m.staleWhileRevalidate then StaleRevalidate
    else if m.staleIfError > 0 && now < m.freshUntil + m.staleIfError then StaleIfError
    else Expired
  }

  /** `epoch` is what the invalidation hook answers for the request and the entry. */
  function Classify(m: Meta, epoch: int, now: int): Service {
    var state := ByTime(m, now);
    if state.Expired? || m.created <= epoch then Expired else state
  }

  function ServeableUntil(m: Meta): int {
    m.freshUntil + Max(m.staleWhileRevalidate, m.staleIfError)
  }

  /** An entry is served exactly while it is fresh or before the bound the disk scan uses, unless it
      was invalidated: the scan never removes an entry that could still be served. */
  lemma ServedIffInWindow(m: Meta, epoch: int, now: int)
    ensures !Classify(m, epoch, now).Expired?
            <==> (now <= m.freshUntil || now < ServeableUntil(m)) && epoch < m.created
  {
  }

  /** The call names something: an empty host or tag purges nothing. */
  predicate Named(p: Scope) {
    match p
    case All => true
    case Tag(t) => t != ""
    case _ => p.host != ""
  }

  /** Once a purge about a response was issued, an entry for it created at or before the instant of the
      call is never served again: not fresh, not stale, at no time, whatever purges, folds or clock
      readings came before or follow. */
  lemma PurgedForGood(cap: int, past: seq<Call>, call: Call, future: seq<Call>,
                      m: Meta, host: string, uri: string, now: int)
    requires Named(call.what) && Matches(call.what, host, uri, m.tags) && m.created <= call.now
    ensures Classify(m, EpochFor(Run(cap, past + [call] + future), host, uri, m.tags), now) == Expired
  {
    var s := Run(cap, past);
    EmptySane();
    RunSane(cap, EMPTY, past);
    TakesEffect(cap, s, call.what, call.now, host, uri, m.tags);
    assert (past + [call])[..|past|] == past;
    StepSane(cap, s, call.what, call.now);
    NeverDecreases(cap, Run(cap, past + [call]), future, host, uri, m.tags);
    Continues(cap, EMPTY, past + [call], future);
  }

  /** Likewise by the epoch the log gave the purge, which is never before its instant. */
  lemma PurgedByEpoch(cap: int, past: seq<Call>, future: seq<Call>, i: nat,
                      m: Meta, host: string, uri: string, now: int)
    requires i < |Log(past)| && Matches(Log(past)[i].what, host, uri, m.tags)
    requires m.created <= Log(past)[i].epoch
    ensures Classify(m, EpochFor(Run(cap, past + future), host, uri, m.tags), now) == Expired
  {
    EmptySane();
    RunSane(cap, EMPTY, past);
    LogBounds(Log(past), i, host, uri, m.tags);
    NeverForgets(cap, past, host, uri, m.tags);
    NeverDecreases(cap, Run(cap, past), future, host, uri, m.tags);
    Continues(cap, EMPTY, past, future);
  }

  /** The three ways to serve, apart: fresh up to its instant, then stale while it may be revalidated,
      then stale only if the origin fails. */
  lemma ServedHow(m: Meta, epoch: int, now: int)
    requires epoch < m.created
    ensures Classify(m, epoch, now) == Fresh <==> now <= m.freshUntil
    ensures Classify(m, epoch, now) == StaleRevalidate
       <==> m.freshUntil < now < m.freshUntil + m.staleWhileRevalidate
    ensures Classify(m, epoch, now) == StaleIfError
       <==> && m.freshUntil < now < m.freshUntil + m.staleIfError
            && now >= m.freshUntil + m.staleWhileRevalidate
  {
  }

  /** No purge reaches forward: an entry created after the latest epoch is judged by time alone. */
  lemma LaterEntriesStand(cap: int, calls: seq<Call>, m: Meta, host: string, uri: string, now: int)
    requires Top(Log(calls)) < m.created
    ensures Classify(m, EpochFor(Run(cap, calls), host, uri, m.tags), now) == ByTime(m, now)
  {
    NeverForgets(cap, calls, host, uri, m.tags);
  }
}
