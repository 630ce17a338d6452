/**
 The purge table against the full log of purges: the table, however often it folds, never forgets
 a purge, and it answers exactly as a log in which every fold is a flush of everything.
 */
module PurgeLog {
  import opened PathPrefix
  import opened Purge
  import opened Texts

  datatype Call = Call(what: Scope, now: int)
  datatype Entry = Entry(what: Scope, epoch: int)

  // ----- the unbounded log

  /** Every purge that took effect, at the latest clock reading up to it (and not before 0). */
  function Log(calls: seq<Call>): seq<Entry> {
    if calls == [] then []
    else
      var log, c := Log(calls[..|calls| - 1]), calls[|calls| - 1];
      if Effective(c.what) then log + [Entry(c.what, Max(c.now, Top(log)))] else log
  }

  function Top(log: seq<Entry>): int {
    if log == [] then 0 else log[|log| - 1].epoch
  }

  /** Whether a purge is about a response: read off the documentation of the scopes. */
  predicate Matches(p: Scope, host: string, uri: string, tags: seq<string>) {
    match p
    case All => true
    case Host(h) => h == host
    case Url(h, u) => h == host && u == uri
    case Prefix(h, pre) => h == host && Covers(PathOf(uri), pre)
    case Tag(t) => t in tags
  }

  /** The latest epoch of a purge that is about the response; 0 when there is none. */
  function LogEpoch(log: seq<Entry>, host: string, uri: string, tags: seq<string>): int {
    if log == [] then 0
    else
      var e, x := LogEpoch(log[..|log| - 1], host, uri, tags), log[|log| - 1];
      if Matches(x.what, host, uri, tags) then Max(e, x.epoch) else e
  }

  ghost function RunFrom(cap: int, s: State, calls: seq<Call>): State {
    if calls == [] then s
    else Step(cap, RunFrom(cap, s, calls[..|calls| - 1]), calls[|calls| - 1].what, calls[|calls| - 1].now)
  }

  ghost function Run(cap: int, calls: seq<Call>): State {
    RunFrom(cap, EMPTY, calls)
  }

  /** The log in which every fold appears for what it is: a flush of everything at the latest epoch. */
  ghost function FoldLog(cap: int, calls: seq<Call>): seq<Entry> {
    if calls == [] then []
    else
      var before, c := calls[..|calls| - 1], calls[|calls| - 1];
      var s := Run(cap, calls);
      var log := FoldLog(cap, before);
      var log' := if Effective(c.what) then log + [Entry(c.what, s.highWater)] else log;
      if s.folds > Run(cap, before).folds then log' + [Entry(All, s.highWater)] else log'
  }

  // ----- what it means for the table to remember a purge

  ghost predicate Held(r: Records, x: Entry) {
    || x.epoch <= r.global
    || match x.what
       case All => false
       case Host(h) => h in r.host && x.epoch <= r.host[h]
       case Url(h, u) => UrlKey(h, u) in r.url && x.epoch <= r.url[UrlKey(h, u)]
       case Prefix(h, p) => h in r.prefix && HeldIn(r.prefix[h], Normalize(p), x.epoch)
       case Tag(t) => t in r.tag && x.epoch <= r.tag[t]
  }

  ghost predicate HeldIn(recs: seq<PrefixRec>, prefix: string, epoch: int) {
    exists i :: 0 <= i < |recs| && recs[i].prefix == prefix && epoch <= recs[i].epoch
  }

  /** Stored prefixes are trimmed. */
  predicate Trimmed(m: map<string, seq<PrefixRec>>) {
    forall h, i :: h in m && 0 <= i < |m[h]| ==> Normalize(m[h][i].prefix) == m[h][i].prefix
  }

  // ----- one prefix stamped

  lemma {:induction false} RefreshedHolds(recs: seq<PrefixRec>, prefix: string, epoch: int)
    ensures HeldIn(Refreshed(recs, prefix, epoch), prefix, epoch)
  {
    var recs' := Refreshed(recs, prefix, epoch);
    if recs == [] || recs[0].prefix == prefix {
      assert recs'[0].prefix == prefix && epoch <= recs'[0].epoch;
    } else {
      RefreshedHolds(recs[1..], prefix, epoch);
      var rest := Refreshed(recs[1..], prefix, epoch);
      var i :| 0 <= i < |rest| && rest[i].prefix == prefix && epoch <= rest[i].epoch;
      assert recs'[i + 1] == rest[i];
    }
  }

  lemma {:induction false} RefreshedKeeps(recs: seq<PrefixRec>, prefix: string, epoch: int, p: string, e: int)
    requires HeldIn(recs, p, e)
    ensures HeldIn(Refreshed(recs, prefix, epoch), p, e)
  {
    var recs' := Refreshed(recs, prefix, epoch);
    var i :| 0 <= i < |recs| && recs[i].prefix == p && e <= recs[i].epoch;
    if recs[0].prefix == prefix {
      assert recs'[i].prefix == p && e <= recs'[i].epoch;
    } else if i == 0 {
      assert recs'[0] == recs[0];
    } else {
      assert recs[1..][i - 1] == recs[i];
      RefreshedKeeps(recs[1..], prefix, epoch, p, e);
      var rest := Refreshed(recs[1..], prefix, epoch);
      var j :| 0 <= j < |rest| && rest[j].prefix == p && e <= rest[j].epoch;
      assert recs'[j + 1] == rest[j];
    }
  }

  /** Every record after the stamp was there before or is the one stamped. */
  lemma {:induction false} RefreshedFrom(recs: seq<PrefixRec>, prefix: string, epoch: int, i: nat)
    requires forall j :: 0 <= j < |recs| ==> recs[j].epoch <= epoch
    requires i < |Refreshed(recs, prefix, epoch)|
    ensures var x := Refreshed(recs, prefix, epoch)[i];
            x == PrefixRec(prefix, epoch) || exists j :: 0 <= j < |recs| && recs[j] == x
  {
    var recs' := Refreshed(recs, prefix, epoch);
    if recs == [] || recs[0].prefix == prefix {
      assert i > 0 ==> recs'[i] == recs[i];
    } else if i > 0 {
      RefreshedFrom(recs[1..], prefix, epoch, i - 1);
      if recs'[i] != PrefixRec(prefix, epoch) {
        var j :| 0 <= j < |recs[1..]| && recs[1..][j] == recs'[i];
        assert recs[j + 1] == recs'[i];
      }
    } else {
      assert recs'[0] == recs[0];
    }
  }

  lemma {:induction false} NormalizeTwice(p: string)
    ensures Normalize(Normalize(p)) == Normalize(p)
  {
    if p != "" && p[|p| - 1] == '/' {
      NormalizeTwice(p[..|p| - 1]);
    }
  }

  // ----- no step forgets

  lemma WrittenHolds(r: Records, p: Scope, epoch: int, x: Entry)
    requires Held(r, x) && x.epoch <= epoch
    ensures Held(Written(r, p, epoch), x)
  {
    if p.Prefix? && x.what.Prefix? && x.epoch > r.global && x.what.host == p.host {
      RefreshedKeeps(r.prefix[p.host], Normalize(p.prefix), epoch, Normalize(x.what.prefix), x.epoch);
    }
  }

  lemma WrittenOwn(r: Records, p: Scope, epoch: int)
    ensures Held(Written(r, p, epoch), Entry(p, epoch))
  {
    if p.Prefix? {
      RefreshedHolds(OfHost(r.prefix, p.host), Normalize(p.prefix), epoch);
    }
  }

  lemma StepHolds(cap: int, s: State, p: Scope, now: int, x: Entry)
    requires Held(s.recs, x) && x.epoch <= s.highWater
    ensures Held(Step(cap, s, p, now).recs, x)
  {
    WrittenHolds(s.recs, p, Max(now, s.highWater), x);
  }

  lemma StepOwn(cap: int, s: State, p: Scope, now: int)
    requires Effective(p)
    ensures Held(Step(cap, s, p, now).recs, Entry(p, Max(now, s.highWater)))
  {
    WrittenOwn(s.recs, p, Max(now, s.highWater));
  }

  // ----- what every step keeps of the table alone

  /** The high-water mark is the highest epoch on record, and a closed gate hides nothing. */
  ghost predicate Sane(s: State) {
    && 0 <= s.recs.global
    && NoneLater(s.recs, s.highWater)
    && Recorded(s.recs, s.highWater)
    && Trimmed(s.recs.prefix)
    && (s.active || s.highWater == 0)
  }

  lemma WrittenNoneLater(r: Records, p: Scope, epoch: int)
    requires NoneLater(r, epoch)
    ensures NoneLater(Written(r, p, epoch), epoch)
  {
    if p.Prefix? {
      var recs := OfHost(r.prefix, p.host);
      var recs' := Refreshed(recs, Normalize(p.prefix), epoch);
      forall i | 0 <= i < |recs'|
        ensures recs'[i].epoch <= epoch
      {
        RefreshedFrom(recs, Normalize(p.prefix), epoch, i);
      }
    }
  }

  lemma WrittenRecorded(r: Records, p: Scope, epoch: int)
    requires NoneLater(r, epoch)
    ensures Recorded(Written(r, p, epoch), epoch)
  {
    var r' := Written(r, p, epoch);
    WrittenNoneLater(r, p, epoch);
    match p {
      case All =>
      case Host(h) => assert r'.host[h] == epoch;
      case Url(h, u) => assert r'.url[UrlKey(h, u)] == epoch;
      case Tag(t) => assert r'.tag[t] == epoch;
      case Prefix(h, pre) =>
        RefreshedHolds(OfHost(r.prefix, h), Normalize(pre), epoch);
        var i :| 0 <= i < |r'.prefix[h]| && r'.prefix[h][i].prefix == Normalize(pre) && epoch <= r'.prefix[h][i].epoch;
        assert r'.prefix[h][i].epoch == epoch;
    }
  }

  lemma WrittenTrimmed(r: Records, p: Scope, epoch: int)
    requires Trimmed(r.prefix) && NoneLater(r, epoch)
    ensures Trimmed(Written(r, p, epoch).prefix)
  {
    if p.Prefix? {
      var recs := OfHost(r.prefix, p.host);
      var recs' := Refreshed(recs, Normalize(p.prefix), epoch);
      forall i | 0 <= i < |recs'|
        ensures Normalize(recs'[i].prefix) == recs'[i].prefix
      {
        RefreshedFrom(recs, Normalize(p.prefix), epoch, i);
        NormalizeTwice(p.prefix);
      }
    }
  }

  lemma CappedSane(s: State, cap: int)
    requires Sane(s)
    ensures Sane(Capped(s, cap))
  {
    var s' := Capped(s, cap);
    if Overflows(s.recs, cap) {
      assert s'.recs.global == s'.highWater;
    }
  }

  lemma StepSane(cap: int, s: State, p: Scope, now: int)
    requires Sane(s)
    ensures Sane(Step(cap, s, p, now))
  {
    var epoch := Max(now, s.highWater);
    assert NoneLater(s.recs, epoch);
    WrittenNoneLater(s.recs, p, epoch);
    WrittenRecorded(s.recs, p, epoch);
    WrittenTrimmed(s.recs, p, epoch);
    if Effective(p) && !p.All? {
      CappedSane(s.(recs := Written(s.recs, p, epoch), highWater := epoch, active := true), cap);
    }
  }

  lemma {:induction false} RunSane(cap: int, s: State, calls: seq<Call>)
    requires Sane(s)
    ensures Sane(RunFrom(cap, s, calls))
  {
    if calls != [] {
      var c := calls[|calls| - 1];
      RunSane(cap, s, calls[..|calls| - 1]);
      StepSane(cap, RunFrom(cap, s, calls[..|calls| - 1]), c.what, c.now);
    }
  }

  lemma EmptySane()
    ensures Sane(EMPTY)
  {
    assert Recorded(NO_RECORDS, 0);
  }

  // ----- the table after a run, beside its log

  ghost predicate Remembers(s: State, log: seq<Entry>) {
    && s.highWater == Top(log)
    && s.active == (log != [])
    && (forall i :: 0 <= i < |log| ==> log[i].epoch <= s.highWater && Held(s.recs, log[i]))
  }

  lemma StepRemembers(cap: int, s: State, log: seq<Entry>, p: Scope, now: int)
    requires Remembers(s, log) && Effective(p)
    ensures Remembers(Step(cap, s, p, now), log + [Entry(p, Max(now, Top(log)))])
  {
    var s', log' := Step(cap, s, p, now), log + [Entry(p, Max(now, Top(log)))];
    StepOwn(cap, s, p, now);
    forall i | 0 <= i < |log'|
      ensures log'[i].epoch <= s'.highWater && Held(s'.recs, log'[i])
    {
      if i < |log| {
        assert log'[i] == log[i];
        StepHolds(cap, s, p, now, log[i]);
      }
    }
  }

  lemma {:induction false} RunRemembers(cap: int, calls: seq<Call>)
    ensures Remembers(Run(cap, calls), Log(calls))
  {
    if calls != [] {
      var before, c := calls[..|calls| - 1], calls[|calls| - 1];
      RunRemembers(cap, before);
      if Effective(c.what) {
        StepRemembers(cap, Run(cap, before), Log(before), c.what, c.now);
      }
    }
  }

  // ----- the lookup is a maximum

  lemma {:induction false} NewestIsMax(recs: seq<PrefixRec>, path: string, e: int)
    ensures var n := Newest(recs, path, e);
            && e <= n
            && (forall i :: 0 <= i < |recs| && MatchPrefix(path, recs[i].prefix) ==> recs[i].epoch <= n)
            && (n == e || exists i :: 0 <= i < |recs| && MatchPrefix(path, recs[i].prefix) && recs[i].epoch == n)
  {
    if recs != [] {
      var e' := if recs[0].epoch > e && MatchPrefix(path, recs[0].prefix) then recs[0].epoch else e;
      var n, rest := Newest(recs, path, e), recs[1..];
      NewestIsMax(rest, path, e');
      forall i | 0 <= i < |recs| && MatchPrefix(path, recs[i].prefix)
        ensures recs[i].epoch <= n
      {
        if i > 0 {
          assert rest[i - 1] == recs[i];
        }
      }
      if n != e && n != e' {
        var i :| 0 <= i < |rest| && MatchPrefix(path, rest[i].prefix) && rest[i].epoch == n;
        assert recs[i + 1] == rest[i];
      }
    }
  }

  lemma {:induction false} TaggedIsMax(tags: seq<string>, m: map<string, int>, e: int)
    requires 0 <= e
    ensures var n := Tagged(tags, m, e);
            && e <= n
            && (forall t :: t in tags && t in m ==> m[t] <= n)
            && (n == e || exists t :: t in tags && t in m && m[t] == n)
  {
    if tags != [] {
      TaggedIsMax(tags[1..], m, Max(e, Get(m, tags[0])));
      assert tags == [tags[0]] + tags[1..];
    }
  }

  /** A purge the table holds that is about a response bounds the epoch of the response. */
  lemma HeldBounds(s: State, x: Entry, host: string, uri: string, tags: seq<string>)
    requires s.active && 0 <= s.recs.global
    requires Held(s.recs, x) && Matches(x.what, host, uri, tags)
    ensures x.epoch <= EpochFor(s, host, uri, tags)
  {
    var r := s.recs;
    var e := Max(Max(r.global, Get(r.host, host)), Get(r.url, UrlKey(host, uri)));
    var recs := OfHost(r.prefix, host);
    NewestIsMax(recs, PathOf(uri), e);
    TaggedIsMax(tags, r.tag, Newest(recs, PathOf(uri), e));
    if x.what.Prefix? {
      MatchIsCover(PathOf(uri), x.what.prefix);
    }
  }

  /** The epoch of a response is that of some purge about it that the table holds; the global epoch
      stands for a purge of everything. */
  lemma EpochHasSource(s: State, host: string, uri: string, tags: seq<string>) returns (x: Entry)
    requires Sane(s) && s.active
    ensures x.epoch == EpochFor(s, host, uri, tags)
    ensures Held(s.recs, x) && Matches(x.what, host, uri, tags)
    ensures match x.what
            case All => x.epoch == s.recs.global
            case Host(h) => h in s.recs.host && x.epoch == s.recs.host[h]
            case Url(h, u) => UrlKey(h, u) in s.recs.url && x.epoch == s.recs.url[UrlKey(h, u)]
            case Prefix(h, p) => h in s.recs.prefix && PrefixRec(p, x.epoch) in s.recs.prefix[h]
            case Tag(t) => t in s.recs.tag && x.epoch == s.recs.tag[t]
  {
    var r, n := s.recs, EpochFor(s, host, uri, tags);
    var e := Max(Max(r.global, Get(r.host, host)), Get(r.url, UrlKey(host, uri)));
    var recs := OfHost(r.prefix, host);
    var e' := Newest(recs, PathOf(uri), e);
    NewestIsMax(recs, PathOf(uri), e);
    TaggedIsMax(tags, r.tag, e');
    if n == r.global {
      x := Entry(All, n);
    } else if n == Get(r.host, host) {
      x := Entry(Host(host), n);
    } else if n == Get(r.url, UrlKey(host, uri)) {
      x := Entry(Url(host, uri), n);
    } else if n == e' {
      var i :| 0 <= i < |recs| && MatchPrefix(PathOf(uri), recs[i].prefix) && recs[i].epoch == n;
      x := Entry(Prefix(host, recs[i].prefix), n);
      MatchIsCover(PathOf(uri), recs[i].prefix);
      assert HeldIn(recs, recs[i].prefix, n);
      assert recs[i] == PrefixRec(recs[i].prefix, n);
    } else {
      var t :| t in tags && t in r.tag && r.tag[t] == n;
      x := Entry(Tag(t), n);
    }
  }

  // ----- the log's own answer

  lemma {:induction false} LogBounds(log: seq<Entry>, i: nat, host: string, uri: string, tags: seq<string>)
    requires i < |log| && Matches(log[i].what, host, uri, tags)
    ensures log[i].epoch <= LogEpoch(log, host, uri, tags)
  {
    var before := log[..|log| - 1];
    if i < |before| {
      assert before[i] == log[i];
      LogBounds(before, i, host, uri, tags);
    }
  }

  lemma {:induction false} LogHasSource(log: seq<Entry>, host: string, uri: string, tags: seq<string>)
    ensures var e := LogEpoch(log, host, uri, tags);
            && 0 <= e
            && (e == 0 || exists i :: 0 <= i < |log| && Matches(log[i].what, host, uri, tags) && log[i].epoch == e)
  {
    if log != [] {
      var before, e := log[..|log| - 1], LogEpoch(log, host, uri, tags);
      LogHasSource(before, host, uri, tags);
      if e != 0 && e == LogEpoch(before, host, uri, tags) {
        var i :| 0 <= i < |before| && Matches(before[i].what, host, uri, tags) && before[i].epoch == e;
        assert log[i] == before[i];
      } else if e != 0 {
        assert log[|log| - 1].epoch == e;
      }
    }
  }

  // ----- the table never forgets a purge

  lemma AtLeastZero(s: State, host: string, uri: string, tags: seq<string>)
    requires Sane(s)
    ensures 0 <= EpochFor(s, host, uri, tags) <= s.highWater
  {
    if s.active {
      HeldBounds(s, Entry(All, s.recs.global), host, uri, tags);
      var x := EpochHasSource(s, host, uri, tags);
    }
  }

  /** For every run, any clock (also one that steps back) and any number of folds: the epoch of a
      response is at least that of every purge about it, and never above the latest epoch issued. */
  lemma NeverForgets(cap: int, calls: seq<Call>, host: string, uri: string, tags: seq<string>)
    ensures LogEpoch(Log(calls), host, uri, tags) <= EpochFor(Run(cap, calls), host, uri, tags)
    ensures EpochFor(Run(cap, calls), host, uri, tags) <= Run(cap, calls).highWater == Top(Log(calls))
  {
    var s, log := Run(cap, calls), Log(calls);
    EmptySane();
    RunSane(cap, EMPTY, calls);
    RunRemembers(cap, calls);
    AtLeastZero(s, host, uri, tags);
    LogHasSource(log, host, uri, tags);
    var e := LogEpoch(log, host, uri, tags);
    if e > 0 {
      var i :| 0 <= i < |log| && Matches(log[i].what, host, uri, tags) && log[i].epoch == e;
      HeldBounds(s, log[i], host, uri, tags);
    }
  }

  lemma StepGrows(cap: int, s: State, p: Scope, now: int, host: string, uri: string, tags: seq<string>)
    requires Sane(s)
    ensures EpochFor(s, host, uri, tags) <= EpochFor(Step(cap, s, p, now), host, uri, tags)
  {
    StepSane(cap, s, p, now);
    AtLeastZero(Step(cap, s, p, now), host, uri, tags);
    if s.active {
      var x := EpochHasSource(s, host, uri, tags);
      AtLeastZero(s, host, uri, tags);
      StepHolds(cap, s, p, now, x);
      HeldBounds(Step(cap, s, p, now), x, host, uri, tags);
    }
  }

  /** No later purge, fold or flush ever lowers the epoch of a response. */
  lemma {:induction false} NeverDecreases(cap: int, s: State, calls: seq<Call>,
                                          host: string, uri: string, tags: seq<string>)
    requires Sane(s)
    ensures EpochFor(s, host, uri, tags) <= EpochFor(RunFrom(cap, s, calls), host, uri, tags)
  {
    if calls != [] {
      var before, c := calls[..|calls| - 1], calls[|calls| - 1];
      NeverDecreases(cap, s, before, host, uri, tags);
      RunSane(cap, s, before);
      StepGrows(cap, RunFrom(cap, s, before), c.what, c.now, host, uri, tags);
    }
  }

  // ----- the table answers as the log does, a fold counting as a flush

  /** A record stands for a purge in the log. */
  ghost predicate Honest(r: Records, log: seq<Entry>) {
    && (r.global == 0 || Entry(All, r.global) in log)
    && (forall h :: h in r.host ==> Entry(Host(h), r.host[h]) in log)
    && (forall k :: k in r.url ==> exists h, u :: k == UrlKey(h, u) && Entry(Url(h, u), r.url[k]) in log)
    && (forall h, i :: h in r.prefix && 0 <= i < |r.prefix[h]| ==> PrefixLogged(log, h, r.prefix[h][i]))
    && (forall t :: t in r.tag ==> Entry(Tag(t), r.tag[t]) in log)
  }

  ghost predicate PrefixLogged(log: seq<Entry>, h: string, rec: PrefixRec) {
    exists p :: Normalize(p) == rec.prefix && Entry(Prefix(h, p), rec.epoch) in log
  }

  lemma LongerLog(r: Records, log: seq<Entry>, x: Entry)
    requires Honest(r, log)
    ensures Honest(r, log + [x])
  {
    forall h, i | h in r.prefix && 0 <= i < |r.prefix[h]|
      ensures PrefixLogged(log + [x], h, r.prefix[h][i])
    {
      assert PrefixLogged(log, h, r.prefix[h][i]);
    }
    forall k | k in r.url
      ensures exists h, u :: k == UrlKey(h, u) && Entry(Url(h, u), r.url[k]) in log + [x]
    {
      var h, u :| k == UrlKey(h, u) && Entry(Url(h, u), r.url[k]) in log;
      assert Entry(Url(h, u), r.url[k]) in log + [x];
    }
  }

  lemma WrittenHonest(r: Records, log: seq<Entry>, p: Scope, epoch: int)
    requires Honest(r, log) && Entry(p, epoch) in log && NoneLater(r, epoch)
    ensures Honest(Written(r, p, epoch), log)
  {
    if p.Prefix? {
      var recs := OfHost(r.prefix, p.host);
      var recs' := Refreshed(recs, Normalize(p.prefix), epoch);
      forall i | 0 <= i < |recs'|
        ensures PrefixLogged(log, p.host, recs'[i])
      {
        RefreshedFrom(recs, Normalize(p.prefix), epoch, i);
      }
    }
  }

  lemma StepHonest(cap: int, s: State, log: seq<Entry>, p: Scope, now: int, log': seq<Entry>)
    requires Sane(s) && Honest(s.recs, log) && Effective(p)
    requires var s' := Step(cap, s, p, now);
             var logged := log + [Entry(p, s'.highWater)];
             log' == if s'.folds > s.folds then logged + [Entry(All, s'.highWater)] else logged
    ensures Honest(Step(cap, s, p, now).recs, log')
  {
    var epoch := Max(now, s.highWater);
    var logged := log + [Entry(p, epoch)];
    LongerLog(s.recs, log, Entry(p, epoch));
    assert NoneLater(s.recs, epoch);
    WrittenHonest(s.recs, logged, p, epoch);
    LongerLog(Written(s.recs, p, epoch), logged, Entry(All, epoch));
  }

  lemma {:induction false} RunHonest(cap: int, calls: seq<Call>)
    ensures Honest(Run(cap, calls).recs, FoldLog(cap, calls))
  {
    if calls != [] {
      var before, c := calls[..|calls| - 1], calls[|calls| - 1];
      RunHonest(cap, before);
      EmptySane();
      RunSane(cap, EMPTY, before);
      if Effective(c.what) {
        StepHonest(cap, Run(cap, before), FoldLog(cap, before), c.what, c.now, FoldLog(cap, calls));
      }
    }
  }

  ghost predicate AllHeld(r: Records, log: seq<Entry>, top: int) {
    forall i :: 0 <= i < |log| ==> log[i].epoch <= top && Held(r, log[i])
  }

  lemma StepAllHeld(cap: int, s: State, log: seq<Entry>, p: Scope, now: int, log': seq<Entry>)
    requires AllHeld(s.recs, log, s.highWater) && Effective(p)
    requires var s' := Step(cap, s, p, now);
             var logged := log + [Entry(p, s'.highWater)];
             log' == if s'.folds > s.folds then logged + [Entry(All, s'.highWater)] else logged
    ensures var s' := Step(cap, s, p, now); AllHeld(s'.recs, log', s'.highWater)
  {
    var s' := Step(cap, s, p, now);
    StepOwn(cap, s, p, now);
    forall i | 0 <= i < |log'|
      ensures log'[i].epoch <= s'.highWater && Held(s'.recs, log'[i])
    {
      if i < |log| {
        assert log'[i] == log[i];
        StepHolds(cap, s, p, now, log[i]);
      }
    }
  }

  lemma {:induction false} RunAllHeld(cap: int, calls: seq<Call>)
    ensures AllHeld(Run(cap, calls).recs, FoldLog(cap, calls), Run(cap, calls).highWater)
    ensures Run(cap, calls).active <==> FoldLog(cap, calls) != []
  {
    if calls != [] {
      var before, c := calls[..|calls| - 1], calls[|calls| - 1];
      RunAllHeld(cap, before);
      if Effective(c.what) {
        StepAllHeld(cap, Run(cap, before), FoldLog(cap, before), c.what, c.now, FoldLog(cap, calls));
      }
    }
  }

  /** The key text tells host and URI apart as long as the host holds no line break. */
  lemma UrlKeyInjective(h: string, u: string, h': string, u': string)
    requires '\n' !in h && '\n' !in h' && UrlKey(h, u) == UrlKey(h', u')
    ensures h == h' && u == u'
  {
    CutAt('\n', h, u, h', u');
  }

  /** For every run: the table's answer is that of the log with its folds, to the nanosecond. */
  lemma ExactWithFolds(cap: int, calls: seq<Call>, host: string, uri: string, tags: seq<string>)
    requires '\n' !in host && forall i :: 0 <= i < |calls| ==> Plain(calls[i].what)
    ensures EpochFor(Run(cap, calls), host, uri, tags) == LogEpoch(FoldLog(cap, calls), host, uri, tags)
  {
    var s, log := Run(cap, calls), FoldLog(cap, calls);
    EmptySane();
    RunSane(cap, EMPTY, calls);
    RunHonest(cap, calls);
    RunAllHeld(cap, calls);
    LogHosts(cap, calls);
    LogHasSource(log, host, uri, tags);
    AtLeastZero(s, host, uri, tags);
    var e := LogEpoch(log, host, uri, tags);
    if e > 0 {
      var i :| 0 <= i < |log| && Matches(log[i].what, host, uri, tags) && log[i].epoch == e;
      HeldBounds(s, log[i], host, uri, tags);
    }
    if s.active {
      var x := EpochHasSource(s, host, uri, tags);
      if x.epoch > 0 {
        var i := SourceLogged(s.recs, log, x, host, uri, tags);
        LogBounds(log, i, host, uri, tags);
      }
    }
  }

  /** Without a fold that is the log of the purges themselves. */
  lemma {:induction false} UnfoldedLog(cap: int, calls: seq<Call>)
    requires Run(cap, calls).folds == 0
    ensures FoldLog(cap, calls) == Log(calls)
  {
    if calls != [] {
      UnfoldedLog(cap, calls[..|calls| - 1]);
      RunRemembers(cap, calls);
    }
  }

  /** While no map has overflowed, the table answers exactly as the log of purges. */
  lemma ExactUntilFolded(cap: int, calls: seq<Call>, host: string, uri: string, tags: seq<string>)
    requires Run(cap, calls).folds == 0
    requires '\n' !in host && forall i :: 0 <= i < |calls| ==> Plain(calls[i].what)
    ensures EpochFor(Run(cap, calls), host, uri, tags) == LogEpoch(Log(calls), host, uri, tags)
  {
    ExactWithFolds(cap, calls, host, uri, tags);
    UnfoldedLog(cap, calls);
  }

  /** The host of a URL purge holds no line break. */
  predicate Plain(p: Scope) {
    p.Url? ==> '\n' !in p.host
  }

  lemma {:induction false} LogHosts(cap: int, calls: seq<Call>)
    requires forall i :: 0 <= i < |calls| ==> Plain(calls[i].what)
    ensures forall i :: 0 <= i < |FoldLog(cap, calls)| ==> Plain(FoldLog(cap, calls)[i].what)
  {
    if calls != [] {
      var before, log := FoldLog(cap, calls[..|calls| - 1]), FoldLog(cap, calls);
      LogHosts(cap, calls[..|calls| - 1]);
      assert Plain(calls[|calls| - 1].what);
      forall i | 0 <= i < |log|
        ensures Plain(log[i].what)
      {
        if i < |before| {
          assert log[i] == before[i];
        }
      }
    }
  }

  lemma SourceLogged(r: Records, log: seq<Entry>, x: Entry, host: string, uri: string, tags: seq<string>)
    returns (i: nat)
    requires Honest(r, log) && x.epoch > 0 && '\n' !in host && Matches(x.what, host, uri, tags)
    requires forall j :: 0 <= j < |log| ==> Plain(log[j].what)
    requires match x.what
             case All => x.epoch == r.global
             case Host(h) => h in r.host && x.epoch == r.host[h]
             case Url(h, u) => UrlKey(h, u) in r.url && x.epoch == r.url[UrlKey(h, u)]
             case Prefix(h, p) => h in r.prefix && PrefixRec(p, x.epoch) in r.prefix[h]
             case Tag(t) => t in r.tag && x.epoch == r.tag[t]
    ensures i < |log| && log[i].epoch == x.epoch && Matches(log[i].what, host, uri, tags)
  {
    if x.what.Url? {
      var k := UrlKey(x.what.host, x.what.uri);
      var h, u :| k == UrlKey(h, u) && Entry(Url(h, u), r.url[k]) in log;
      i :| i < |log| && log[i] == Entry(Url(h, u), r.url[k]);
      UrlKeyInjective(h, u, host, uri);
    } else if x.what.Prefix? {
      var recs := r.prefix[x.what.host];
      var j :| 0 <= j < |recs| && recs[j] == PrefixRec(x.what.prefix, x.epoch);
      assert PrefixLogged(log, host, recs[j]);
      var p :| Normalize(p) == recs[j].prefix && Entry(Prefix(host, p), x.epoch) in log;
      i :| i < |log| && log[i] == Entry(Prefix(host, p), x.epoch);
      TrimSegments(p);
      TrimSegments(x.what.prefix);
      MatchIsCover(PathOf(uri), p);
      MatchIsCover(PathOf(uri), x.what.prefix);
      NormalizeTwice(p);
    } else {
      i :| i < |log| && log[i] == x;
    }
  }

  // ----- memory

  /** No map outgrows the cap, whatever is purged. */
  lemma {:induction false} StaysSmall(cap: int, calls: seq<Call>)
    requires cap >= 1
    ensures !Overflows(Run(cap, calls).recs, cap)
  {
    assert Places(map[], {}) == {};
    if calls != [] {
      StaysSmall(cap, calls[..|calls| - 1]);
    }
  }

  // ----- a restored table

  /** Two tables nobody can tell apart: a gate still closed matters only while no epoch is positive. */
  ghost predicate Alike(s: State, s': State) {
    s.recs == s'.recs && s.highWater == s'.highWater && (s.active == s'.active || s.highWater == 0)
  }

  lemma AlikeEpochs(s: State, s': State, host: string, uri: string, tags: seq<string>)
    requires Sane(s) && Sane(s') && Alike(s, s')
    ensures EpochFor(s, host, uri, tags) == EpochFor(s', host, uri, tags)
  {
    AtLeastZero(s, host, uri, tags);
    AtLeastZero(s', host, uri, tags);
  }

  lemma {:induction false} AlikeRuns(cap: int, s: State, s': State, calls: seq<Call>)
    requires Alike(s, s')
    ensures Alike(RunFrom(cap, s, calls), RunFrom(cap, s', calls))
  {
    if calls != [] {
      AlikeRuns(cap, s, s', calls[..|calls| - 1]);
    }
  }

  /** A fresh table that restores the snapshot of a table gives every response the same epoch as the
      original, now and after any identical continuation of purges and clock readings. */
  lemma RestoreIsFaithful(cap: int, past: seq<Call>, top: int, future: seq<Call>,
                          host: string, uri: string, tags: seq<string>)
    requires NoneLater(Run(cap, past).recs, top) && Recorded(Run(cap, past).recs, top)
    ensures var copy := Restored(EMPTY, Run(cap, past).recs, top);
            EpochFor(RunFrom(cap, copy, future), host, uri, tags)
            == EpochFor(RunFrom(cap, Run(cap, past), future), host, uri, tags)
  {
    var s := Run(cap, past);
    var copy := Restored(EMPTY, s.recs, top);
    EmptySane();
    RunSane(cap, EMPTY, past);
    assert top == s.highWater;
    assert Sane(copy) && Alike(s, copy);
    AlikeRuns(cap, s, copy, future);
    RunSane(cap, s, future);
    RunSane(cap, copy, future);
    AlikeEpochs(RunFrom(cap, s, future), RunFrom(cap, copy, future), host, uri, tags);
  }

  lemma {:induction false} Continues(cap: int, s: State, past: seq<Call>, future: seq<Call>)
    ensures RunFrom(cap, s, past + future) == RunFrom(cap, RunFrom(cap, s, past), future)
  {
    if future == [] {
      assert past + future == past;
    } else {
      assert (past + future)[..|past + future| - 1] == past + future[..|future| - 1];
      Continues(cap, s, past, future[..|future| - 1]);
    }
  }

  // ----- a purge takes effect

  /** Whoever purges a host, a tag, or everything moves the epoch of every response the purge is about to
      the instant of the call or later. */
  lemma TakesEffect(cap: int, s: State, p: Scope, now: int, host: string, uri: string, tags: seq<string>)
    requires Sane(s) && Matches(p, host, uri, tags)
    requires p.All? || (p.Tag? && p.tag != "") || (!p.All? && !p.Tag? && p.host != "")
    ensures now <= EpochFor(Step(cap, s, p, now), host, uri, tags)
    ensures s.highWater <= EpochFor(Step(cap, s, p, now), host, uri, tags)
  {
    StepSane(cap, s, p, now);
    StepOwn(cap, s, p, now);
    HeldBounds(Step(cap, s, p, now), Entry(p, Max(now, s.highWater)), host, uri, tags);
  }

  /** An empty host or tag changes nothing at all. */
  lemma EmptyIsIgnored(cap: int, s: State, p: Scope, now: int)
    requires (p.Tag? && p.tag == "") || (!p.All? && !p.Tag? && p.host == "")
    ensures Step(cap, s, p, now) == s
  {
  }

  /** A flush forgets every record: the global epoch stands for them all. */
  lemma FlushForgets(cap: int, s: State, now: int)
    ensures var r := Step(cap, s, All, now).recs;
            r.host == map[] && r.url == map[] && r.prefix == map[] && r.tag == map[]
    ensures Step(cap, s, All, now).folds == s.folds
  {
  }

  // ----- a table folds only when it has to

  lemma {:induction false} RefreshedLength(recs: seq<PrefixRec>, prefix: string, epoch: int)
    ensures |recs| <= |Refreshed(recs, prefix, epoch)| <= |recs| + 1
  {
    if recs != [] && recs[0].prefix != prefix {
      RefreshedLength(recs[1..], prefix, epoch);
    }
  }

  lemma OneKeyMore(m: map<string, int>, k: string, v: int)
    ensures |m[k := v]| <= |m| + 1
  {
    assert m[k := v].Keys == m.Keys + {k};
  }

  lemma OnePlaceMore(m: map<string, seq<PrefixRec>>, h: string, prefix: string, epoch: int)
    ensures var m' := m[h := Refreshed(OfHost(m, h), prefix, epoch)];
            |Places(m', m'.Keys)| <= |Places(m, m.Keys)| + 1
  {
    var recs := OfHost(m, h);
    var m' := m[h := Refreshed(recs, prefix, epoch)];
    RefreshedLength(recs, prefix, epoch);
    var room := Places(m, m.Keys) + {(h, |recs|)};
    assert Places(m', m'.Keys) <= room;
    Fewer(Places(m', m'.Keys), room);
  }

  lemma Fewer(a: set<(string, nat)>, b: set<(string, nat)>)
    requires a <= b
    ensures |a| <= |b|
  {
    assert b == a + (b - a);
  }

  /** No scope holds more than `n` records. */
  ghost predicate Within(r: Records, n: int) {
    |r.host| <= n && |r.url| <= n && |r.tag| <= n && |Places(r.prefix, r.prefix.Keys)| <= n
  }

  lemma WrittenWithin(r: Records, p: Scope, epoch: int, n: int)
    requires Within(r, n) && n >= 0
    ensures Within(Written(r, p, epoch), n + 1)
  {
    match p
    case All => assert Places(map[], {}) == {};
    case Host(h) => OneKeyMore(r.host, h, epoch);
    case Url(h, u) => OneKeyMore(r.url, UrlKey(h, u), epoch);
    case Prefix(h, pre) => OnePlaceMore(r.prefix, h, Normalize(pre), epoch);
    case Tag(t) => OneKeyMore(r.tag, t, epoch);
  }

  /** Up to as many purges as the cap allows, nothing is folded: every purge is remembered as it was. */
  lemma {:induction false} NoFoldWithinCap(cap: int, calls: seq<Call>)
    requires |calls| <= cap
    ensures Run(cap, calls).folds == 0 && Within(Run(cap, calls).recs, |calls|)
  {
    assert Places(map[], {}) == {};
    if calls != [] {
      var front, c := calls[..|calls| - 1], calls[|calls| - 1];
      NoFoldWithinCap(cap, front);
      var s := Run(cap, front);
      WrittenWithin(s.recs, c.what, Max(c.now, s.highWater), |front|);
    }
  }
}
