/**
 Cache keys and Vary variants: a stored response is found again by the requests it may answer, and
 by no others.  Digests are taken to be injective, so a key is the pair of texts that are hashed.
 */
module CacheKey {
  import opened Texts
  import opened VaryNames

  /** Header names are lower-case; only the first value of a name plays a part. */
  datatype Request = Request(host: string, verb: string, scheme: string, uri: string, headers: map<string, string>)

  /** Simple case folding, as far as it reaches the letters a to z. */
  function Fold(c: char): char {
    if 'A' <= c <= 'Z' then (c as int + 32) as char
    else if c == '\U{017F}' then 's'
    else if c == '\U{212A}' then 'k'
    else c
  }

  function Folded(s: string): string {
    seq(|s|, i requires 0 <= i < |s| => Fold(s[i]))
  }

  predicate EqualFold(s: string, t: string) {
    Folded(s) == Folded(t)
  }

  /** The scheme of the key, from the text of X-Forwarded-Proto ("" when absent) and the connection. */
  function SchemeOf(forwarded: string, tls: bool): string {
    if EqualFold(forwarded, "https") then "https"
    else if EqualFold(forwarded, "http") then "http"
    else if tls then "https"
    else "http"
  }

  function First(headers: map<string, string>, name: string): string {
    if name in headers then headers[name] else ""
  }

  /** The text behind the primary hash. */
  function Primary(r: Request): string {
    r.host + "\n" + r.verb + "\n" + r.scheme + "\n" + r.uri
  }

  /** The text behind the variant hash, after the primary. */
  function Variance(names: seq<string>, headers: map<string, string>): string {
    if names == [] then ""
    else Line(names[0], First(headers, names[0])) + Variance(names[1..], headers)
  }

  function Line(name: string, value: string): string {
    name + "=" + value + "\n"
  }

  method WriteVariance(names: seq<string>, headers: map<string, string>) returns (b: string)
    ensures b == Variance(names, headers)
  {
    b := "";
    assert names[0..] == names;
    for i := 0 to |names|
      invariant b + Variance(names[i..], headers) == Variance(names, headers)
    {
      ghost var was, rest := b, Variance(names[i + 1..], headers);
      assert names[i..][1..] == names[i + 1..];
      b := b + names[i];
      b := b + "=";
      b := b + First(headers, names[i]);
      b := b + "\n";
      Appended(was, names[i], First(headers, names[i]), rest);
    }
  }

  lemma Appended(b: string, name: string, value: string, rest: string)
    ensures b + name + "=" + value + "\n" + rest == b + (Line(name, value) + rest)
  {
    assert b + name + "=" + value + "\n" == b + Line(name, value);
  }

  // ----- the texts tell requests apart

  /** The parts that are joined by line breaks hold none. */
  predicate Placed(r: Request) {
    '\n' !in r.host && '\n' !in r.verb && '\n' !in r.scheme
  }

  /** What requests that reach the cache can carry: a header name with a value. */
  type Wire = (string, string) -> bool

  ghost predicate OneLineValues(wire: Wire) {
    forall n, v :: wire(n, v) ==> '\n' !in v
  }

  ghost predicate Proper(wire: Wire, r: Request) {
    Placed(r) && forall n :: n in r.headers ==> wire(n, r.headers[n])
  }

  predicate SamePlace(r: Request, r': Request) {
    r.host == r'.host && r.verb == r'.verb && r.scheme == r'.scheme && r.uri == r'.uri
  }

  predicate AgreeOn(names: seq<string>, r: Request, r': Request) {
    forall n :: n in names ==> First(r.headers, n) == First(r'.headers, n)
  }

  lemma PrimaryInjective(r: Request, r': Request)
    requires Placed(r) && Placed(r')
    ensures Primary(r) == Primary(r') <==> SamePlace(r, r')
  {
    if Primary(r) == Primary(r') {
      var a, a' := r.scheme + "\n" + r.uri, r'.scheme + "\n" + r'.uri;
      var b, b' := r.verb + "\n" + a, r'.verb + "\n" + a';
      assert Primary(r) == r.host + ['\n'] + b && Primary(r') == r'.host + ['\n'] + b';
      CutAt('\n', r.host, b, r'.host, b');
      CutAt('\n', r.verb, a, r'.verb, a');
      CutAt('\n', r.scheme, r.uri, r'.scheme, r'.uri);
    }
  }

  /** Forwarding a scheme again keeps it, spelling does not matter, and the connection decides exactly
      when the text spells neither scheme; so a place has two keys, whatever clients forward. */
  lemma SchemeIsCanonical(r: Request, forwarded: string, again: string, tls: bool, tls': bool)
    requires EqualFold(forwarded, again)
    ensures SchemeOf(SchemeOf(forwarded, tls), tls') == SchemeOf(forwarded, tls) == SchemeOf(again, tls)
    ensures SchemeOf(forwarded, true) != SchemeOf(forwarded, false)
       <==> !EqualFold(forwarded, "http") && !EqualFold(forwarded, "https")
    ensures EqualFold(forwarded, "https") ==> SchemeOf(forwarded, tls) == "https"
    ensures EqualFold(forwarded, "http") ==> SchemeOf(forwarded, tls) == "http"
    ensures !EqualFold(forwarded, "http") && !EqualFold(forwarded, "https") ==>
              (SchemeOf(forwarded, tls) == "https" <==> tls)
    ensures var key := Primary(r.(scheme := SchemeOf(forwarded, tls)));
            key == Primary(r.(scheme := "http")) || key == Primary(r.(scheme := "https"))
  {
    assert Folded("http")[..] == "http" && Folded("https") == "https";
    assert |Folded("http")| != |Folded("https")|;
  }

  /** The line of `n` with some value of a request is the line of `m` with the value `u`. */
  ghost predicate Collide(wire: Wire, n: string, m: string, u: string) {
    n + "=" <= m && (u == "" || wire(m, u)) && wire(n, m[|n| + 1..] + "=" + u)
  }

  /** No name reads like another name followed by the start of a value some request can carry. */
  ghost predicate Apart(wire: Wire, names: set<string>) {
    forall n, m, u :: n in names && m in names ==> !Collide(wire, n, m, u)
  }

  predicate OneLine(names: set<string>) {
    forall n :: n in names ==> '\n' !in n
  }

  predicate Drawn(list: seq<string>, names: set<string>) {
    forall i :: 0 <= i < |list| ==> list[i] in names
  }

  lemma HoldsEquals(n: string, m: string)
    requires n + "=" <= m
    ensures '=' in m
  {
    assert m[|n|] == (n + "=")[|n|];
  }

  /** In particular, names that are tokens in the sense of section 5.6.2 of RFC 9110 are apart. */
  lemma TokensAreApart(wire: Wire, names: set<string>)
    requires forall n :: n in names ==> '=' !in n
    ensures Apart(wire, names)
  {
    forall n, m, u | n in names && m in names
      ensures !Collide(wire, n, m, u)
    {
      if n + "=" <= m {
        HoldsEquals(n, m);
      }
    }
  }

  /** The longer name of two equal lines holds the start of the other's value. */
  lemma LongerHolds(n: string, v: string, n': string, v': string)
    requires n + "=" + v == n' + "=" + v' && |n| < |n'|
    ensures n + "=" <= n' && v == n'[|n| + 1..] + "=" + v'
  {
    var k := n + "=" + v;
    assert n' == k[..|n'|] && n + "=" == k[..|n| + 1];
    assert n + "=" == n'[..|n| + 1];
    assert v == k[|n| + 1..];
    assert n' + "=" + v' == n + "=" + (n'[|n| + 1..] + "=" + v');
  }

  lemma CarriedCollide(wire: Wire, n: string, v: string, n': string, v': string)
    requires (v == "" || wire(n, v)) && (v' == "" || wire(n', v'))
    requires n + "=" + v == n' + "=" + v' && |n| < |n'|
    ensures Collide(wire, n, n', v')
  {
    LongerHolds(n, v, n', v');
  }

  lemma NotLonger(wire: Wire, names: set<string>, n: string, v: string, n': string, v': string)
    requires Apart(wire, names) && n in names && n' in names
    requires (v == "" || wire(n, v)) && (v' == "" || wire(n', v'))
    requires n + "=" + v == n' + "=" + v'
    ensures |n| >= |n'|
  {
    if |n| < |n'| {
      CarriedCollide(wire, n, v, n', v');
    }
  }

  lemma LineInjective(wire: Wire, names: set<string>, n: string, v: string, n': string, v': string)
    requires Apart(wire, names) && n in names && n' in names
    requires (v == "" || wire(n, v)) && (v' == "" || wire(n', v'))
    requires n + "=" + v == n' + "=" + v'
    ensures n == n' && v == v'
  {
    NotLonger(wire, names, n, v, n', v');
    NotLonger(wire, names, n', v', n, v);
    var k := n + "=" + v;
    assert n == k[..|n|] && n' == k[..|n'|];
    assert v == k[|n| + 1..] && v' == k[|n'| + 1..];
  }

  lemma FirstCarried(wire: Wire, r: Request, n: string)
    requires OneLineValues(wire) && Proper(wire, r)
    ensures First(r.headers, n) == "" || wire(n, First(r.headers, n))
    ensures '\n' !in First(r.headers, n)
  {
  }

  /** Equal texts come from equal name lists and equal values. */
  lemma {:induction false} VarianceInjective(wire: Wire, names: set<string>, l: seq<string>, r: Request,
                                             l': seq<string>, r': Request)
    requires OneLineValues(wire) && Apart(wire, names) && OneLine(names) && Drawn(l, names) && Drawn(l', names)
    requires Proper(wire, r) && Proper(wire, r') && Variance(l, r.headers) == Variance(l', r'.headers)
    ensures l == l' && AgreeOn(l, r, r')
  {
    if l != [] && l' != [] {
      var n, v, n', v' := l[0], First(r.headers, l[0]), l'[0], First(r'.headers, l'[0]);
      var rest, rest' := Variance(l[1..], r.headers), Variance(l'[1..], r'.headers);
      assert (n + "=" + v) + ['\n'] + rest == Variance(l, r.headers);
      assert (n' + "=" + v') + ['\n'] + rest' == Variance(l', r'.headers);
      FirstCarried(wire, r, n);
      FirstCarried(wire, r', n');
      CutAt('\n', n + "=" + v, rest, n' + "=" + v', rest');
      LineInjective(wire, names, n, v, n', v');
      VarianceInjective(wire, names, l[1..], r, l'[1..], r');
      assert l == [n] + l[1..] && l' == [n'] + l'[1..];
    }
  }

  lemma {:induction false} VarianceCongruent(l: seq<string>, r: Request, r': Request)
    requires AgreeOn(l, r, r')
    ensures Variance(l, r.headers) == Variance(l, r'.headers)
  {
    if l != [] {
      assert forall n :: n in l[1..] ==> n in l;
      VarianceCongruent(l[1..], r, r');
    }
  }

  // ----- the cache as a state machine

  datatype Key = Key(primary: string, variance: string)

  /** A stored response: the request that filled it and the response's own Vary, sorted. */
  datatype Entry = Entry(filler: Request, vary: seq<string>)

  datatype State = State(learned: map<string, seq<string>>, store: map<Key, Entry>)

  datatype Option<T> = None | Some(value: T)

  /** Commit stores a finished fill; Learn is the later update of the Vary map; Forget its eviction;
      Drop any removal from storage. */
  datatype Action =
    | Commit(r: Request, vary: seq<string>)
    | Learn(primary: string, vary: seq<string>)
    | Forget(primary: string)
    | Drop(key: Key)

  function KeyFor(r: Request, sorted: seq<string>): Key {
    Key(Primary(r), Variance(sorted, r.headers))
  }

  function Names(s: State, primary: string): seq<string> {
    if primary in s.learned then s.learned[primary] else []
  }

  function Lookup(s: State, r: Request): Option<Entry> {
    var k := KeyFor(r, Names(s, Primary(r)));
    if k in s.store then Some(s.store[k]) else None
  }

  function Apply(s: State, a: Action): State {
    match a
    case Commit(r, vary) => s.(store := s.store[KeyFor(r, Sort(vary)) := Entry(r, Sort(vary))])
    case Learn(primary, vary) => s.(learned := s.learned[primary := Sort(vary)])
    case Forget(primary) => s.(learned := s.learned - {primary})
    case Drop(key) => s.(store := s.store - {key})
  }

  function Run(schedule: seq<Action>): State {
    if schedule == [] then State(map[], map[])
    else Apply(Run(schedule[..|schedule| - 1]), schedule[|schedule| - 1])
  }

  /** Vary names come from `names`, requests from the wire. */
  ghost predicate Admissible(wire: Wire, names: set<string>, a: Action) {
    match a
    case Commit(r, vary) => Proper(wire, r) && Drawn(vary, names)
    case Learn(_, vary) => Drawn(vary, names)
    case Forget(_) => true
    case Drop(_) => true
  }

  ghost predicate AllAdmissible(wire: Wire, names: set<string>, schedule: seq<Action>) {
    forall i :: 0 <= i < |schedule| ==> Admissible(wire, names, schedule[i])
  }

  ghost predicate Inv(wire: Wire, names: set<string>, s: State) {
    && (forall k :: k in s.store ==>
          && k == KeyFor(s.store[k].filler, s.store[k].vary)
          && Proper(wire, s.store[k].filler)
          && Drawn(s.store[k].vary, names))
    && (forall p :: p in s.learned ==> Drawn(s.learned[p], names))
  }

  lemma SortDrawn(list: seq<string>, names: set<string>)
    requires Drawn(list, names)
    ensures Drawn(Sort(list), names)
  {
    forall i | 0 <= i < |Sort(list)|
      ensures Sort(list)[i] in names
    {
      SortMembers(list, Sort(list)[i]);
    }
  }

  lemma {:induction false} RunKeeps(wire: Wire, names: set<string>, schedule: seq<Action>)
    requires AllAdmissible(wire, names, schedule)
    ensures Inv(wire, names, Run(schedule))
  {
    if schedule != [] {
      var a := schedule[|schedule| - 1];
      RunKeeps(wire, names, schedule[..|schedule| - 1]);
      assert Admissible(wire, names, a);
      if a.Commit? || a.Learn? {
        SortDrawn(a.vary, names);
      }
    }
  }

  /** A lookup finds an entry if and only if the entry is in storage under its own key, was filled for
      the same host, method, scheme and URI, carries exactly the Vary now known for them, and its
      filler agrees with the request on every header that Vary names. */
  lemma FoundIff(wire: Wire, names: set<string>, schedule: seq<Action>, r: Request, e: Entry)
    requires OneLineValues(wire) && Apart(wire, names) && OneLine(names)
    requires AllAdmissible(wire, names, schedule) && Proper(wire, r)
    ensures var s := Run(schedule);
            Lookup(s, r) == Some(e)
            <==>
            && KeyFor(e.filler, e.vary) in s.store && s.store[KeyFor(e.filler, e.vary)] == e
            && SamePlace(e.filler, r)
            && e.vary == Names(s, Primary(r))
            && AgreeOn(e.vary, e.filler, r)
  {
    var s := Run(schedule);
    RunKeeps(wire, names, schedule);
    var l := Names(s, Primary(r));
    if Lookup(s, r) == Some(e) {
      assert KeyFor(r, l) == KeyFor(e.filler, e.vary);
      PrimaryInjective(e.filler, r);
      VarianceInjective(wire, names, e.vary, e.filler, l, r);
    }
    if SamePlace(e.filler, r) && e.vary == l && AgreeOn(e.vary, e.filler, r) {
      VarianceCongruent(l, e.filler, r);
    }
  }

  /** The entry may answer the request, in the sense of section 4.1 of RFC 9111. */
  ghost predicate RightVariant(found: Option<Entry>, r: Request) {
    found.Some? ==> SamePlace(found.value.filler, r) && AgreeOn(found.value.vary, found.value.filler, r)
  }

  /** However the Vary map is learned, relearned and evicted, no request is ever given another
      variant's response. */
  lemma NoWrongVariant(wire: Wire, names: set<string>, schedule: seq<Action>, r: Request)
    requires OneLineValues(wire) && Apart(wire, names) && OneLine(names)
    requires AllAdmissible(wire, names, schedule) && Proper(wire, r)
    ensures RightVariant(Lookup(Run(schedule), r), r)
  {
    var found := Lookup(Run(schedule), r);
    if found.Some? {
      FoundIff(wire, names, schedule, r, found.value);
    }
  }

  /** A fill that was committed and learned answers every request it may answer, in whatever order
      the response listed its Vary names. */
  lemma FillIsFound(schedule: seq<Action>, r: Request, vary: seq<string>, again: seq<string>, r': Request)
    requires multiset(again) == multiset(vary) && SamePlace(r, r') && AgreeOn(vary, r, r')
    ensures Lookup(Run(schedule + [Commit(r, vary), Learn(Primary(r), again)]), r') == Some(Entry(r, Sort(vary)))
  {
    var first, both := schedule + [Commit(r, vary)], schedule + [Commit(r, vary), Learn(Primary(r), again)];
    assert both[..|both| - 1] == first && first[..|first| - 1] == schedule;
    var s := Run(both);
    assert s == Apply(Run(first), Learn(Primary(r), again));
    assert Run(first) == Apply(Run(schedule), Commit(r, vary));
    SortCanonical(again, vary);
    forall n | n in Sort(vary)
      ensures First(r.headers, n) == First(r'.headers, n)
    {
      SortMembers(vary, n);
    }
    VarianceCongruent(Sort(vary), r, r');
  }

  // ----- and exactly when

  /** The Vary map learns only what a fill of the same place committed before. */
  predicate Causal(schedule: seq<Action>) {
    forall i :: 0 <= i < |schedule| && schedule[i].Learn? ==>
      exists j :: 0 <= j < i && schedule[j].Commit?
                  && Primary(schedule[j].r) == schedule[i].primary && schedule[j].vary == schedule[i].vary
  }

  /** The run behind a collision: the response stored under Vary `m` is gone, another request of the
      place is filled with a response of Vary `n`, and a lookup comes before that is learned. */
  function Refill(other: Request, m: string, filler: Request, n: string): seq<Action> {
    [Commit(other, [m]), Learn(Primary(other), [m]), Drop(KeyFor(other, [m])), Commit(filler, [n])]
  }

  lemma RefillState(other: Request, m: string, filler: Request, n: string)
    requires Primary(other) == Primary(filler)
    ensures Run(Refill(other, m, filler, n))
         == State(map[Primary(other) := [m]], map[KeyFor(filler, [n]) := Entry(filler, [n])])
  {
    var schedule := Refill(other, m, filler, n);
    assert [m][1..] == [] && [n][1..] == [] && Sort([m]) == [m] && Sort([n]) == [n];
    assert schedule[..3][..2] == schedule[..2] && schedule[..2][..1] == schedule[..1] && schedule[..1][..0] == [];
    assert Run(schedule[..1]) == Apply(Run([]), schedule[0]);
    assert Run(schedule[..2]) == Apply(Run(schedule[..1]), schedule[1]);
    assert Run(schedule[..3]) == Apply(Run(schedule[..2]), schedule[2]);
    assert Run(schedule[..3]) == State(map[Primary(other) := [m]], map[]);
  }

  lemma OneLineVariance(n: string, headers: map<string, string>)
    ensures Variance([n], headers) == Line(n, First(headers, n))
  {
    assert [n][1..] == [];
  }

  lemma RefillFound(other: Request, m: string, filler: Request, n: string)
    requires Primary(other) == Primary(filler)
    requires Line(m, First(other.headers, m)) == Line(n, First(filler.headers, n))
    ensures Lookup(Run(Refill(other, m, filler, n)), other) == Some(Entry(filler, [n]))
  {
    RefillState(other, m, filler, n);
    OneLineVariance(m, other.headers);
    OneLineVariance(n, filler.headers);
  }

  lemma RefillAdmissible(wire: Wire, other: Request, m: string, filler: Request, n: string)
    requires Proper(wire, other) && Proper(wire, filler)
    ensures AllAdmissible(wire, {n, m}, Refill(other, m, filler, n)) && Causal(Refill(other, m, filler, n))
  {
    var schedule := Refill(other, m, filler, n);
    assert schedule[0] == Commit(other, [m]) && schedule[1] == Learn(Primary(other), [m]);
  }

  /** Two names that collide give one request the other's response. */
  lemma WrongVariantRun(wire: Wire, n: string, m: string, u: string) returns (schedule: seq<Action>, r: Request)
    requires Collide(wire, n, m, u)
    ensures AllAdmissible(wire, {n, m}, schedule) && Causal(schedule) && Proper(wire, r)
    ensures !RightVariant(Lookup(Run(schedule), r), r)
  {
    var v := m[|n| + 1..] + "=" + u;
    var filler := Request("h", "GET", "http", "/", map[n := v]);
    r := Request("h", "GET", "http", "/", if u == "" then map[] else map[m := u]);
    schedule := Refill(r, m, filler, n);
    RefillAdmissible(wire, r, m, filler, n);
    assert m + "=" + u == n + "=" + v;
    RefillFound(r, m, filler, n);
    assert n in [n] && First(filler.headers, n) != First(r.headers, n);
  }

  ghost predicate NeverWrong(wire: Wire, names: set<string>) {
    forall schedule, r ::
      AllAdmissible(wire, names, schedule) && Causal(schedule) && Proper(wire, r)
      ==> RightVariant(Lookup(Run(schedule), r), r)
  }

  /** For a set of Vary names and whatever requests can carry: no run over them ever serves a wrong
      variant if and only if the names are apart. */
  lemma NeverWrongIffApart(wire: Wire, names: set<string>)
    requires OneLineValues(wire) && OneLine(names)
    ensures NeverWrong(wire, names) <==> Apart(wire, names)
  {
    if Apart(wire, names) {
      forall schedule, r | AllAdmissible(wire, names, schedule) && Causal(schedule) && Proper(wire, r)
        ensures RightVariant(Lookup(Run(schedule), r), r)
      {
        NoWrongVariant(wire, names, schedule, r);
      }
    } else {
      var n, m, u :| n in names && m in names && Collide(wire, n, m, u);
      var schedule, r := WrongVariantRun(wire, n, m, u);
      forall i | 0 <= i < |schedule|
        ensures Admissible(wire, names, schedule[i])
      {
        assert Admissible(wire, {n, m}, schedule[i]);
      }
    }
  }

  /** A server that refuses an equals sign in a header name and a line break in a value. */
  predicate Served(name: string, value: string) {
    '=' !in name && '\n' !in value
  }

  /** Behind such a server the condition is on the names alone: none that a request can carry,
      followed by an equals sign, begins another. */
  lemma NeverWrongWhenServed(names: set<string>)
    requires OneLine(names)
    ensures NeverWrong(Served, names)
       <==> forall n, m :: n in names && m in names && '=' !in n ==> !(n + "=" <= m)
  {
    NeverWrongIffApart(Served, names);
    if Apart(Served, names) {
      forall n, m | n in names && m in names && '=' !in n
        ensures !(n + "=" <= m)
      {
        assert !Collide(Served, n, m, "");
      }
    }
  }

  // ----- the bounded Vary map

  class VaryMap {
    const max: nat
    var names: map<string, seq<string>>

    constructor (max: nat)
      requires max >= 1
      ensures names == map[] && this.max == max
    {
      this.max := max;
      names := map[];
    }

    /** Records the sorted names; a full map gives up one arbitrary other primary for a new one. */
    method Set(primary: string, vary: seq<string>) returns (ghost victims: set<string>)
      requires max >= 1
      modifies this
      ensures names == (old(names) - victims)[primary := Sort(vary)]
      ensures |victims| <= 1 && victims <= old(names).Keys
      ensures victims != {} <==> primary !in old(names) && |old(names)| >= max
      ensures |old(names)| <= max ==> |names| <= max
    {
      victims := {};
      if primary !in names && |names| >= max {
        assert names.Keys != {};
        var k :| k in names;
        victims := {k};
        assert names.Keys == (names.Keys - {k}) + {k};
        names := names - {k};
        assert names.Keys == old(names).Keys - {k};
      }
      assert names[primary := Sort(vary)].Keys == names.Keys + {primary};
      names := names[primary := Sort(vary)];
    }
  }
}
