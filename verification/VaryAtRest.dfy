/**
 Vary variants without a race: every commit is followed at once by the learning of its names.  Behind
 a server that refuses an equals sign in header names, the exact condition on Vary names under which
 no such run ever serves a wrong variant.
 */
module VaryAtRest {
  import opened CacheKey
  import opened Texts
  import opened VaryNames

  datatype Op = Fill(r: Request, vary: seq<string>) | Evict(primary: string) | Lose(key: Key)

  function Perform(s: State, op: Op): State {
    match op
    case Fill(r, vary) => Apply(Apply(s, Commit(r, vary)), Learn(Primary(r), vary))
    case Evict(primary) => Apply(s, Forget(primary))
    case Lose(key) => Apply(s, Drop(key))
  }

  function Rest(ops: seq<Op>): State {
    if ops == [] then State(map[], map[])
    else Perform(Rest(ops[..|ops| - 1]), ops[|ops| - 1])
  }

  predicate Distinct(list: seq<string>) {
    forall i, j :: 0 <= i < j < |list| ==> list[i] != list[j]
  }

  /** Vary lists are drawn from `names` without repetition, as they are parsed. */
  ghost predicate Allowed(names: set<string>, op: Op) {
    op.Fill? ==> Proper(Served, op.r) && Drawn(op.vary, names) && Distinct(op.vary)
  }

  ghost predicate AllAllowed(names: set<string>, ops: seq<Op>) {
    forall i :: 0 <= i < |ops| ==> Allowed(names, ops[i])
  }

  // ----- sorted lists without repetition

  predicate Rising(list: seq<string>) {
    Sorted(list) && Distinct(list)
  }

  lemma SortRising(list: seq<string>, names: set<string>)
    requires Distinct(list) && Drawn(list, names)
    ensures Rising(Sort(list)) && Drawn(Sort(list), names)
  {
    SortSorts(list);
    SortDrawn(list, names);
    DistinctCounts(list);
    CountsDistinct(Sort(list));
  }

  lemma {:induction false} DistinctCounts(list: seq<string>)
    requires Distinct(list)
    ensures forall x :: multiset(list)[x] <= 1
  {
    if list != [] {
      DistinctCounts(list[1..]);
      assert list == [list[0]] + list[1..];
      assert list[0] !in list[1..];
    }
  }

  lemma CountsDistinct(list: seq<string>)
    requires forall x :: multiset(list)[x] <= 1
    ensures Distinct(list)
  {
    forall i, j | 0 <= i < j < |list|
      ensures list[i] != list[j]
    {
      assert list == list[..j] + list[j..];
      assert list[i] in list[..j] && list[j] in list[j..];
      assert multiset(list) == multiset(list[..j]) + multiset(list[j..]);
      assert multiset(list)[list[i]] <= 1;
      assert multiset(list[..j])[list[i]] >= 1 && multiset(list[j..])[list[j]] >= 1;
    }
  }

  /** `a` comes strictly before `b`. */
  predicate Before(a: string, b: string) {
    Below(a, b) && a != b
  }

  lemma {:induction false} PrefixBelow(a: string, b: string)
    requires a <= b
    ensures Below(a, b)
  {
    if a != "" {
      PrefixBelow(a[1..], b[1..]);
    }
  }

  // ----- line by line

  /** Equal texts have as many lines, and the lines are equal. */
  lemma {:induction false} SameLines(names: set<string>, l: seq<string>, r: Request, l': seq<string>, r': Request)
    requires OneLine(names) && Drawn(l, names) && Drawn(l', names) && Proper(Served, r) && Proper(Served, r')
    requires Variance(l, r.headers) == Variance(l', r'.headers)
    ensures |l| == |l'|
    ensures forall k :: 0 <= k < |l| ==> SameLine(l[k], r, l'[k], r')
  {
    if l != [] && l' != [] {
      var n, v, n', v' := l[0], First(r.headers, l[0]), l'[0], First(r'.headers, l'[0]);
      var rest, rest' := Variance(l[1..], r.headers), Variance(l'[1..], r'.headers);
      assert (n + "=" + v) + ['\n'] + rest == Variance(l, r.headers);
      assert (n' + "=" + v') + ['\n'] + rest' == Variance(l', r'.headers);
      FirstCarried(Served, r, n);
      FirstCarried(Served, r', n');
      CutAt('\n', n + "=" + v, rest, n' + "=" + v', rest');
      SameLines(names, l[1..], r, l'[1..], r');
      forall k | 0 <= k < |l|
        ensures SameLine(l[k], r, l'[k], r')
      {
        if k > 0 {
          assert l[1..][k - 1] == l[k] && l'[1..][k - 1] == l'[k];
        }
      }
    }
  }

  predicate SameLine(n: string, r: Request, n': string, r': Request) {
    n + "=" + First(r.headers, n) == n' + "=" + First(r'.headers, n')
  }

  /** Facing a name without an equals sign stands that name itself, with the same value, or one that extends it. */
  lemma FacingPlain(n: string, r: Request, n': string, r': Request)
    requires '=' !in n && SameLine(n, r, n', r')
    ensures n == n' ==> First(r.headers, n) == First(r'.headers, n')
    ensures n != n' ==> n + "=" <= n' && Before(n, n')
  {
    var v, v' := First(r.headers, n), First(r'.headers, n');
    if |n'| < |n| {
      LongerHolds(n', v', n, v);
      HoldsEquals(n', n);
    } else if |n| < |n'| {
      LongerHolds(n, v, n', v');
      assert n <= n' by {
        assert n == (n + "=")[..|n|] && n + "=" == n'[..|n| + 1];
      }
      PrefixBelow(n, n');
    } else {
      var k := n + "=" + v;
      assert n == k[..|n|] && n' == k[..|n'|];
      assert v == k[|n| + 1..] && v' == k[|n'| + 1..];
    }
  }

  // ----- the condition

  /** `m` extends `n` by an equals sign, and `q` is a third name requests can carry that sorts alike
      beside either. */
  predicate Mixing(n: string, m: string, q: string) {
    '=' !in n && '=' !in q && q != n && n + "=" <= m && (Before(q, n) || Before(m, q))
  }

  predicate Steady(names: set<string>) {
    forall n, m, q :: n in names && m in names && q in names ==> !Mixing(n, m, q)
  }

  /** The alignment at the heart of it: two rising lists whose texts agree for requests that differ on a
      name of the first, and a plain name of the second, yield three mixing names. */
  lemma Aligned(names: set<string>, l: seq<string>, f: Request, l': seq<string>, r: Request, k1: nat, k: nat)
    requires OneLine(names) && Drawn(l, names) && Drawn(l', names) && Rising(l) && Rising(l')
    requires Proper(Served, f) && Proper(Served, r) && Variance(l, f.headers) == Variance(l', r.headers)
    requires k1 < |l| && First(f.headers, l[k1]) != First(r.headers, l[k1])
    requires k < |l'| && '=' !in l'[k]
    ensures k1 < |l'| && Mixing(l[k1], l'[k1], l'[k])
  {
    SameLines(names, l, f, l', r);
    var n, m, q := l[k1], l'[k1], l'[k];
    FirstCarried(Served, f, n);
    FirstCarried(Served, r, n);
    FacingPlain(n, f, m, r);
    HoldsEquals(n, m);
    assert k != k1;
    assert SameLine(q, r, l[k], f);
    FacingPlain(q, r, l[k], f);
    if k1 < k {
      assert Before(m, q);
      NotInside(n, m, q);
    } else {
      assert Before(l[k], n);
      if q != l[k] {
        BelowTransitive(q, l[k], n);
        BeforeNot(q, l[k], n);
      }
    }
  }

  /** What sorts after an extension of `n` is not `n`. */
  lemma NotInside(n: string, m: string, q: string)
    requires Before(m, q) && n + "=" <= m
    ensures q != n
  {
    assert n <= m by {
      assert n == (n + "=")[..|n|] && n + "=" == m[..|n| + 1];
    }
    PrefixBelow(n, m);
    if q == n {
      BelowAntisymmetric(m, n);
    }
  }

  lemma BeforeNot(a: string, b: string, c: string)
    requires Before(a, b) && Before(b, c)
    ensures a != c
  {
    if a == c {
      BelowAntisymmetric(a, b);
    }
  }

  // ----- steady names are safe

  /** Entries lie under their own keys; the names known for a place are those of its last fill, whose
      key holds nothing filled under other names. */
  ghost predicate Inv(names: set<string>, s: State) {
    && (forall k :: k in s.store ==> Filed(names, k, s.store[k]))
    && (forall p :: p in s.learned ==>
          && Rising(s.learned[p]) && Drawn(s.learned[p], names)
          && exists g :: LastFill(s, p, g))
  }

  ghost predicate Filed(names: set<string>, k: Key, e: Entry) {
    k == KeyFor(e.filler, e.vary) && Proper(Served, e.filler) && Drawn(e.vary, names) && Rising(e.vary)
  }

  ghost predicate LastFill(s: State, p: string, g: Request)
    requires p in s.learned
  {
    && Proper(Served, g) && Primary(g) == p
    && var k := KeyFor(g, s.learned[p]);
       (k in s.store ==> s.store[k].vary == s.learned[p])
  }

  lemma FillKeeps(names: set<string>, s: State, r: Request, vary: seq<string>)
    requires Inv(names, s) && Allowed(names, Fill(r, vary))
    ensures Inv(names, Perform(s, Fill(r, vary)))
  {
    var s' := Perform(s, Fill(r, vary));
    SortRising(vary, names);
    assert LastFill(s', Primary(r), r);
    forall p | p in s'.learned && p != Primary(r)
      ensures exists g :: LastFill(s', p, g)
    {
      var g :| LastFill(s, p, g);
      assert LastFill(s', p, g);
    }
  }

  lemma OtherKeeps(names: set<string>, s: State, op: Op)
    requires Inv(names, s) && !op.Fill?
    ensures Inv(names, Perform(s, op))
  {
    var s' := Perform(s, op);
    forall p | p in s'.learned
      ensures exists g :: LastFill(s', p, g)
    {
      var g :| LastFill(s, p, g);
      assert LastFill(s', p, g);
    }
  }

  lemma {:induction false} RestKeeps(names: set<string>, ops: seq<Op>)
    requires AllAllowed(names, ops)
    ensures Inv(names, Rest(ops))
  {
    if ops != [] {
      var front, op := ops[..|ops| - 1], ops[|ops| - 1];
      RestKeeps(names, front);
      assert Allowed(names, op);
      match op
      case Fill(r, vary) => FillKeeps(names, Rest(front), r, vary);
      case Evict(_) => OtherKeeps(names, Rest(front), op);
      case Lose(_) => OtherKeeps(names, Rest(front), op);
    }
  }

  /** Different texts of one list mean different values of a name requests can carry. */
  lemma DifferOn(l: seq<string>, g: Request, r: Request) returns (k: nat)
    requires Proper(Served, g) && Proper(Served, r) && Variance(l, g.headers) != Variance(l, r.headers)
    ensures k < |l| && '=' !in l[k]
  {
    if AgreeOn(l, g, r) {
      VarianceCongruent(l, g, r);
    }
    var n :| n in l && First(g.headers, n) != First(r.headers, n);
    FirstCarried(Served, g, n);
    FirstCarried(Served, r, n);
    k :| k < |l| && l[k] == n;
  }

  /** A wrong variant found at rest: the names involved mix. */
  lemma WrongMeansMixing(names: set<string>, s: State, r: Request, e: Entry, k1: nat) returns (k: nat)
    requires OneLine(names) && Inv(names, s) && Proper(Served, r) && Lookup(s, r) == Some(e)
    requires k1 < |e.vary| && First(e.filler.headers, e.vary[k1]) != First(r.headers, e.vary[k1])
    ensures var l := Names(s, Primary(r)); k1 < |l| && k < |l| && Mixing(e.vary[k1], l[k1], l[k])
  {
    var l, f := Names(s, Primary(r)), e.filler;
    assert Filed(names, KeyFor(r, l), e);
    SameLines(names, e.vary, f, l, r);
    assert Primary(r) in s.learned;
    var g :| LastFill(s, Primary(r), g);
    if Variance(l, g.headers) == Variance(l, r.headers) {
      assert KeyFor(g, l) == KeyFor(r, l);
      assert SameLine(e.vary[k1], f, l[k1], r);
      SameNameSameValue(e.vary[k1], f, r);
    }
    k := DifferOn(l, g, r);
    Aligned(names, e.vary, f, l, r, k1, k);
  }

  lemma SameNameSameValue(n: string, f: Request, r: Request)
    requires SameLine(n, f, n, r)
    ensures First(f.headers, n) == First(r.headers, n)
  {
    var k := n + "=" + First(f.headers, n);
    assert First(f.headers, n) == k[|n| + 1..] && First(r.headers, n) == k[|n| + 1..];
  }

  lemma SteadyIsSafe(names: set<string>, ops: seq<Op>, r: Request)
    requires OneLine(names) && Steady(names) && AllAllowed(names, ops) && Proper(Served, r)
    ensures RightVariant(Lookup(Rest(ops), r), r)
  {
    var s := Rest(ops);
    var found := Lookup(s, r);
    RestKeeps(names, ops);
    if found.Some? {
      var e := found.value;
      assert Filed(names, KeyFor(r, Names(s, Primary(r))), e);
      PrimaryInjective(e.filler, r);
      forall n | n in e.vary
        ensures First(e.filler.headers, n) == First(r.headers, n)
      {
        var k1: nat :| k1 < |e.vary| && e.vary[k1] == n;
        if First(e.filler.headers, n) != First(r.headers, n) {
          var k := WrongMeansMixing(names, s, r, e, k1);
          InNames(names, s, r, e, k1, k);
        }
      }
    }
  }

  lemma InNames(names: set<string>, s: State, r: Request, e: Entry, k1: nat, k: nat)
    requires Inv(names, s) && Lookup(s, r) == Some(e) && k1 < |e.vary|
    requires var l := Names(s, Primary(r)); k1 < |l| && k < |l| && Mixing(e.vary[k1], l[k1], l[k])
    ensures !Steady(names)
  {
    assert Filed(names, KeyFor(r, Names(s, Primary(r))), e);
  }

  // ----- and others are not

  lemma TwoSorted(a: string, b: string)
    requires Before(a, b)
    ensures Sort([a, b]) == [a, b] && Sort([b, a]) == [a, b]
  {
    assert Sorted([a, b]) && multiset([b, a]) == multiset([a, b]);
    SortSorts([a, b]);
    SortedUnique(Sort([a, b]), [a, b]);
    SortCanonical([b, a], [a, b]);
  }

  lemma TwoLines(a: string, b: string, headers: map<string, string>)
    ensures Variance([a, b], headers) == Line(a, First(headers, a)) + Line(b, First(headers, b))
  {
    assert [a, b][1..] == [b];
    OneLineVariance(b, headers);
  }

  const BARE := Request("h", "GET", "http", "/", map[])

  lemma TwoFills(f: Request, vary: seq<string>, g: Request, vary': seq<string>)
    requires Primary(f) == Primary(g) == Primary(BARE)
    requires KeyFor(BARE, Sort(vary')) == KeyFor(f, Sort(vary)) != KeyFor(g, Sort(vary'))
    ensures Lookup(Rest([Fill(f, vary), Fill(g, vary')]), BARE) == Some(Entry(f, Sort(vary)))
  {
    var ops := [Fill(f, vary), Fill(g, vary')];
    assert ops[..1] == [Fill(f, vary)] && [Fill(f, vary)][..0] == [];
    assert Rest([]) == State(map[], map[]);
    assert Rest(ops[..1]) == Perform(Rest([]), Fill(f, vary));
  }

  /** The texts behind the mix-up, in either sort order. */
  lemma MixedTexts(n: string, m: string, q: string, f: Request, g: Request)
    requires Mixing(n, m, q)
    requires f == BARE.(headers := map[n := m[|n| + 1..] + "="]) && g == BARE.(headers := map[q := "1"])
    ensures KeyFor(BARE, Sort([m, q])) == KeyFor(f, Sort([n, q])) != KeyFor(g, Sort([m, q]))
  {
    HoldsEquals(n, m);
    assert n <= m by {
      assert n == (n + "=")[..|n|] && n + "=" == m[..|n| + 1];
    }
    PrefixBelow(n, m);
    assert Line(m, "") == Line(n, m[|n| + 1..] + "=");
    if Before(m, q) {
      BelowTransitive(n, m, q);
      TwoSorted(n, q);
      TwoSorted(m, q);
      TwoLines(n, q, f.headers);
      TwoLines(m, q, BARE.headers);
      TwoLines(m, q, g.headers);
      assert |Line(q, "1")| != |Line(q, "")|;
    } else {
      BelowTransitive(q, n, m);
      TwoSorted(q, n);
      TwoSorted(q, m);
      TwoLines(q, n, f.headers);
      TwoLines(q, m, BARE.headers);
      TwoLines(q, m, g.headers);
      assert |Line(q, "1")| != |Line(q, "")|;
    }
  }

  lemma MixUpAllowed(n: string, m: string, q: string, ops: seq<Op>)
    requires Mixing(n, m, q) && '\n' !in m
    requires ops == [Fill(BARE.(headers := map[n := m[|n| + 1..] + "="]), [n, q]),
                     Fill(BARE.(headers := map[q := "1"]), [m, q])]
    ensures AllAllowed({n, m, q}, ops) && Proper(Served, BARE)
  {
    HoldsEquals(n, m);
  }

  /** Three mixing names: a filler and a second fill that varies by the third name leave an entry that
      answers a request without headers, and goes on doing so. */
  lemma LastingMixUp(n: string, m: string, q: string) returns (ops: seq<Op>)
    requires Mixing(n, m, q) && '\n' !in m
    ensures AllAllowed({n, m, q}, ops) && Proper(Served, BARE) && !RightVariant(Lookup(Rest(ops), BARE), BARE)
  {
    var f, g := BARE.(headers := map[n := m[|n| + 1..] + "="]), BARE.(headers := map[q := "1"]);
    ops := [Fill(f, [n, q]), Fill(g, [m, q])];
    MixUpAllowed(n, m, q, ops);
    MixedTexts(n, m, q, f, g);
    TwoFills(f, [n, q], g, [m, q]);
    SortMembers([n, q], n);
    assert n in Sort([n, q]) && First(f.headers, n) != First(BARE.headers, n);
  }

  ghost predicate NeverWrongAtRest(names: set<string>) {
    forall ops, r :: AllAllowed(names, ops) && Proper(Served, r) ==> RightVariant(Lookup(Rest(ops), r), r)
  }

  /** Without a race, behind such a server: no run over the names ever serves a wrong variant if and only
      if no three of them mix. */
  lemma NeverWrongAtRestIff(names: set<string>)
    requires OneLine(names)
    ensures NeverWrongAtRest(names) <==> Steady(names)
  {
    if Steady(names) {
      forall ops, r | AllAllowed(names, ops) && Proper(Served, r)
        ensures RightVariant(Lookup(Rest(ops), r), r)
      {
        SteadyIsSafe(names, ops, r);
      }
    } else {
      var n, m, q :| n in names && m in names && q in names && Mixing(n, m, q);
      var ops := LastingMixUp(n, m, q);
      forall i | 0 <= i < |ops|
        ensures Allowed(names, ops[i])
      {
        assert Allowed({n, m, q}, ops[i]);
      }
    }
  }
}
