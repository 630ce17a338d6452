/**
 The purge table: per-scope epochs, a bounded memory that folds into the global epoch, and the
 lookup that takes the maximum over the scopes.  Hosts are taken as already normalised.
 */
module Purge {
  import opened PathPrefix

  datatype PrefixRec = PrefixRec(prefix: string, epoch: int)

  /** What a snapshot carries. */
  datatype Records = Records(
    global: int,
    host: map<string, int>,
    url: map<string, int>,
    prefix: map<string, seq<PrefixRec>>,
    tag: map<string, int>)

  datatype State = State(recs: Records, highWater: int, folds: nat, active: bool)

  /** One purge an operator can issue. */
  datatype Scope =
    | All
    | Host(host: string)
    | Url(host: string, uri: string)
    | Prefix(host: string, prefix: string)
    | Tag(tag: string)

  const NO_RECORDS := Records(0, map[], map[], map[], map[])
  const EMPTY := State(NO_RECORDS, 0, 0, false)

  /** The text whose digest keys the url map; digests are taken to be injective. */
  function UrlKey(host: string, uri: string): string {
    host + "\n" + uri
  }

  function Get(m: map<string, int>, k: string): int {
    if k in m then m[k] else 0
  }

  function Max(a: int, b: int): int {
    if a < b then b else a
  }

  // ----- what each operation does to the state

  /** An empty host or tag is ignored, clock and all. */
  predicate Effective(p: Scope) {
    match p
    case All => true
    case Host(h) => h != ""
    case Url(h, _) => h != ""
    case Prefix(h, _) => h != ""
    case Tag(t) => t != ""
  }

  /** A host's records after one prefix was stamped. */
  function Refreshed(recs: seq<PrefixRec>, prefix: string, epoch: int): seq<PrefixRec> {
    if recs == [] then [PrefixRec(prefix, epoch)]
    else if recs[0].prefix == prefix then [PrefixRec(prefix, Max(recs[0].epoch, epoch))] + recs[1..]
    else [recs[0]] + Refreshed(recs[1..], prefix, epoch)
  }

  function OfHost(m: map<string, seq<PrefixRec>>, host: string): seq<PrefixRec> {
    if host in m then m[host] else []
  }

  function Written(r: Records, p: Scope, epoch: int): Records {
    match p
    case All => Records(epoch, map[], map[], map[], map[])
    case Host(h) => r.(host := r.host[h := epoch])
    case Url(h, u) => r.(url := r.url[UrlKey(h, u) := epoch])
    case Prefix(h, pre) => r.(prefix := r.prefix[h := Refreshed(OfHost(r.prefix, h), Normalize(pre), epoch)])
    case Tag(t) => r.(tag := r.tag[t := epoch])
  }

  /** The places of the prefix records: a host and a position. */
  ghost function Places(m: map<string, seq<PrefixRec>>, hosts: set<string>): set<(string, nat)> {
    set h, i: nat | h in hosts && h in m && i < |m[h]| :: (h, i)
  }

  ghost predicate Overflows(r: Records, cap: int) {
    |r.url| > cap || |r.host| > cap || |Places(r.prefix, r.prefix.Keys)| > cap || |r.tag| > cap
  }

  ghost function Capped(s: State, cap: int): State {
    var r := s.recs;
    if !Overflows(r, cap) then s
    else s.(folds := s.folds + 1,
            recs := Records(s.highWater,
                            if |r.host| > cap then map[] else r.host,
                            if |r.url| > cap then map[] else r.url,
                            if |Places(r.prefix, r.prefix.Keys)| > cap then map[] else r.prefix,
                            if |r.tag| > cap then map[] else r.tag))
  }

  ghost function Step(cap: int, s: State, p: Scope, now: int): State {
    if !Effective(p) then s
    else
      var epoch := Max(now, s.highWater);
      var s' := s.(recs := Written(s.recs, p, epoch), highWater := epoch, active := true);
      if p.All? then s' else Capped(s', cap)
  }

  // ----- the lookup

  function Newest(recs: seq<PrefixRec>, path: string, e: int): int {
    if recs == [] then e
    else Newest(recs[1..], path, if recs[0].epoch > e && MatchPrefix(path, recs[0].prefix) then recs[0].epoch else e)
  }

  function Tagged(tags: seq<string>, m: map<string, int>, e: int): int {
    if tags == [] then e else Tagged(tags[1..], m, Max(e, Get(m, tags[0])))
  }

  function EpochFor(s: State, host: string, uri: string, tags: seq<string>): int {
    if !s.active then 0
    else
      var e := Max(Max(s.recs.global, Get(s.recs.host, host)), Get(s.recs.url, UrlKey(host, uri)));
      Tagged(tags, s.recs.tag, Newest(OfHost(s.recs.prefix, host), PathOf(uri), e))
  }

  // ----- a restored table

  /** `e` is the epoch of some record. */
  ghost predicate Recorded(r: Records, e: int) {
    || e == r.global
    || (exists k :: k in r.host && r.host[k] == e)
    || (exists k :: k in r.url && r.url[k] == e)
    || (exists h, i :: h in r.prefix && 0 <= i < |r.prefix[h]| && r.prefix[h][i].epoch == e)
    || (exists k :: k in r.tag && r.tag[k] == e)
  }

  ghost predicate NoneLater(r: Records, e: int) {
    && r.global <= e
    && (forall k :: k in r.host ==> r.host[k] <= e)
    && (forall k :: k in r.url ==> r.url[k] <= e)
    && (forall h, i :: h in r.prefix && 0 <= i < |r.prefix[h]| ==> r.prefix[h][i].epoch <= e)
    && (forall k :: k in r.tag ==> r.tag[k] <= e)
  }

  /** The state Restore leaves, given the highest epoch of the snapshot. */
  function Restored(s: State, snapshot: Records, top: int): State {
    s.(recs := snapshot, highWater := top, active := s.active || top > 0)
  }

  /** The highest value of a map, or the floor when none is higher. */
  method Highest(m: map<string, int>, floor: int) returns (top: int)
    ensures floor <= top && forall k :: k in m ==> m[k] <= top
    ensures top == floor || exists k :: k in m && m[k] == top
  {
    top := floor;
    var keys := m.Keys;
    while keys != {}
      invariant keys <= m.Keys && floor <= top
      invariant forall k :: k in m && k !in keys ==> m[k] <= top
      invariant top == floor || exists k :: k in m && m[k] == top
      decreases |keys|
    {
      var k :| k in keys;
      if m[k] > top {
        top := m[k];
      }
      keys := keys - {k};
    }
  }

  method HighestRec(recs: seq<PrefixRec>, floor: int) returns (top: int)
    ensures floor <= top && forall i :: 0 <= i < |recs| ==> recs[i].epoch <= top
    ensures top == floor || exists i :: 0 <= i < |recs| && recs[i].epoch == top
  {
    top := floor;
    for i := 0 to |recs|
      invariant floor <= top && forall j :: 0 <= j < i ==> recs[j].epoch <= top
      invariant top == floor || exists j :: 0 <= j < i && recs[j].epoch == top
    {
      if recs[i].epoch > top {
        top := recs[i].epoch;
      }
    }
  }

  method HighestPrefix(m: map<string, seq<PrefixRec>>, floor: int) returns (top: int)
    ensures floor <= top && forall h, i :: h in m && 0 <= i < |m[h]| ==> m[h][i].epoch <= top
    ensures top == floor || exists h, i :: h in m && 0 <= i < |m[h]| && m[h][i].epoch == top
  {
    top := floor;
    var hosts := m.Keys;
    while hosts != {}
      invariant hosts <= m.Keys && floor <= top
      invariant forall h, i :: h in m && h !in hosts && 0 <= i < |m[h]| ==> m[h][i].epoch <= top
      invariant top == floor || exists h, i :: h in m && 0 <= i < |m[h]| && m[h][i].epoch == top
      decreases |hosts|
    {
      var h :| h in hosts;
      top := HighestRec(m[h], top);
      hosts := hosts - {h};
    }
  }

  /** The number of prefix records over all hosts. */
  method PrefixCount(m: map<string, seq<PrefixRec>>) returns (n: nat)
    ensures n == |Places(m, m.Keys)|
  {
    n := 0;
    var hosts := m.Keys;
    assert Places(m, m.Keys - hosts) == {};
    while hosts != {}
      invariant hosts <= m.Keys && n == |Places(m, m.Keys - hosts)|
      decreases |hosts|
    {
      var h :| h in hosts;
      OneHostMore(m, m.Keys - hosts, h);
      assert m.Keys - (hosts - {h}) == (m.Keys - hosts) + {h};
      n := n + |m[h]|;
      hosts := hosts - {h};
    }
    assert m.Keys - hosts == m.Keys;
  }

  lemma OneHostMore(m: map<string, seq<PrefixRec>>, hosts: set<string>, h: string)
    requires h in m && h !in hosts
    ensures |Places(m, hosts + {h})| == |Places(m, hosts)| + |m[h]|
  {
    var own := set i: nat | i < |m[h]| :: (h, i);
    assert Places(m, hosts + {h}) == Places(m, hosts) + own;
    assert Places(m, hosts) !! own;
    RowCounts(h, |m[h]|);
  }

  lemma {:induction false} RowCounts(h: string, n: nat)
    ensures |set i: nat | i < n :: (h, i)| == n
  {
    var row := set i: nat | i < n :: (h, i);
    if n > 0 {
      RowCounts(h, n - 1);
      var shorter := set i: nat | i < n - 1 :: (h, i);
      assert row == shorter + {(h, n - 1)};
    } else {
      assert row == {};
    }
  }

  class Table {
    const maxRecs: int
    var host: map<string, int>
    var url: map<string, int>
    var prefix: map<string, seq<PrefixRec>>
    var tag: map<string, int>
    var global: int
    var highWater: int
    var folds: nat
    var active: bool

    function View(): State
      reads this
    {
      State(Records(global, host, url, prefix, tag), highWater, folds, active)
    }

    constructor (cap: int)
      ensures View() == EMPTY
      ensures maxRecs == if cap > 0 then cap else 65536
    {
      maxRecs := if cap > 0 then cap else 65536;
      host, url, prefix, tag := map[], map[], map[], map[];
      global, highWater, folds, active := 0, 0, 0, false;
    }

    /** A fresh epoch: the clock, but never behind an earlier epoch. */
    method Stamp(now: int) returns (n: int)
      modifies this`highWater, this`active
      ensures n == highWater == Max(now, old(highWater)) && active
    {
      n := now;
      if n < highWater {
        n := highWater;
      }
      highWater := n;
      active := true;
    }

    method FlushAll(now: int)
      modifies this
      ensures View() == Step(maxRecs, old(View()), All, now)
    {
      global := Stamp(now);
      host, url, prefix, tag := map[], map[], map[], map[];
    }

    method PurgeHost(h: string, now: int)
      modifies this
      ensures View() == Step(maxRecs, old(View()), Host(h), now)
    {
      if h == "" {
        return;
      }
      var epoch := Stamp(now);
      host := host[h := epoch];
      EnforceCap();
    }

    method PurgeURL(h: string, uri: string, now: int)
      modifies this
      ensures View() == Step(maxRecs, old(View()), Url(h, uri), now)
    {
      if h == "" {
        return;
      }
      var epoch := Stamp(now);
      url := url[UrlKey(h, uri) := epoch];
      EnforceCap();
    }

    method PurgePrefix(h: string, pre: string, now: int)
      modifies this
      ensures View() == Step(maxRecs, old(View()), Prefix(h, pre), now)
    {
      if h == "" {
        return;
      }
      var epoch := Stamp(now);
      ApplyPrefix(h, Normalize(pre), epoch);
      EnforceCap();
    }

    method PurgeTag(t: string, now: int)
      modifies this
      ensures View() == Step(maxRecs, old(View()), Tag(t), now)
    {
      if t == "" {
        return;
      }
      var epoch := Stamp(now);
      tag := tag[t := epoch];
      EnforceCap();
    }

    /** Refreshes the record of the prefix in place, or appends one. */
    method ApplyPrefix(h: string, pre: string, epoch: int)
      modifies this`prefix
      ensures prefix == old(prefix)[h := Refreshed(OfHost(old(prefix), h), pre, epoch)]
    {
      var recs := OfHost(prefix, h);
      assert recs[0..] == recs;
      for i := 0 to |recs|
        invariant Refreshed(recs, pre, epoch) == recs[..i] + Refreshed(recs[i..], pre, epoch)
        invariant prefix == old(prefix)
      {
        assert recs[i..][1..] == recs[i + 1..];
        if recs[i].prefix == pre {
          var refreshed := if epoch > recs[i].epoch then recs[i].(epoch := epoch) else recs[i];
          assert recs[i := refreshed] == recs[..i] + ([refreshed] + recs[i + 1..]);
          prefix := prefix[h := recs[i := refreshed]];
          return;
        }
        assert recs[..i + 1] == recs[..i] + [recs[i]];
        assert recs[..i] + ([recs[i]] + Refreshed(recs[i + 1..], pre, epoch))
            == recs[..i + 1] + Refreshed(recs[i + 1..], pre, epoch);
      }
      assert recs[..|recs|] == recs && recs[|recs|..] == [];
      prefix := prefix[h := recs + [PrefixRec(pre, epoch)]];
    }

    /** Clears every map that grew past the cap and raises the global epoch over what was dropped. */
    method EnforceCap()
      modifies this
      ensures View() == Capped(old(View()), maxRecs)
    {
      var folded := ClearOverflows();
      if folded {
        global := highWater;
        folds := folds + 1;
      }
    }

    method ClearOverflows() returns (folded: bool)
      modifies this`url, this`host, this`prefix, this`tag
      ensures url == if |old(url)| > maxRecs then map[] else old(url)
      ensures host == if |old(host)| > maxRecs then map[] else old(host)
      ensures prefix == if |Places(old(prefix), old(prefix).Keys)| > maxRecs then map[] else old(prefix)
      ensures tag == if |old(tag)| > maxRecs then map[] else old(tag)
      ensures folded <==> |old(url)| > maxRecs || |old(host)| > maxRecs || |old(tag)| > maxRecs
                          || |Places(old(prefix), old(prefix).Keys)| > maxRecs
    {
      folded := false;
      if |url| > maxRecs {
        url, folded := map[], true;
      }
      if |host| > maxRecs {
        host, folded := map[], true;
      }
      var count := PrefixCount(prefix);
      if count > maxRecs {
        prefix, folded := map[], true;
      }
      if |tag| > maxRecs {
        tag, folded := map[], true;
      }
    }

    method Epoch(h: string, uri: string, tags: seq<string>) returns (e: int)
      ensures e == EpochFor(View(), h, uri, tags)
    {
      if !active {
        return 0;
      }
      var path := PathOf(uri);
      e := global;
      if Get(host, h) > e {
        e := Get(host, h);
      }
      if Get(url, UrlKey(h, uri)) > e {
        e := Get(url, UrlKey(h, uri));
      }
      var recs := OfHost(prefix, h);
      ghost var wanted := Newest(recs, path, e);
      assert recs[0..] == recs;
      for i := 0 to |recs|
        invariant Newest(recs[i..], path, e) == wanted
      {
        assert recs[i..][1..] == recs[i + 1..];
        if recs[i].epoch > e && MatchPrefix(path, recs[i].prefix) {
          e := recs[i].epoch;
        }
      }
      wanted := Tagged(tags, tag, e);
      assert tags[0..] == tags;
      for i := 0 to |tags|
        invariant Tagged(tags[i..], tag, e) == wanted
      {
        assert tags[i..][1..] == tags[i + 1..];
        if Get(tag, tags[i]) > e {
          e := Get(tag, tags[i]);
        }
      }
    }

    method Snapshot() returns (snapshot: Records)
      ensures snapshot == View().recs
    {
      snapshot := Records(global, host, url, prefix, tag);
    }

    /** Takes over a snapshot and recomputes the high-water mark and the gate from it. */
    method Restore(snapshot: Records)
      modifies this
      ensures NoneLater(snapshot, highWater) && Recorded(snapshot, highWater)
      ensures View() == Restored(old(View()), snapshot, highWater)
    {
      host, url, prefix, tag := snapshot.host, snapshot.url, snapshot.prefix, snapshot.tag;
      global := snapshot.global;
      var top := Highest(host, global);
      top := Highest(url, top);
      top := HighestPrefix(prefix, top);
      top := Highest(tag, top);
      highWater := top;
      if top > 0 {
        active := true;
      }
    }
  }
}
