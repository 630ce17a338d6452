/**
 The canonical order of Vary header names: one key per set of names, however a response lists them.
 */
module VaryNames {

  /** Lexicographic order, the one sort.Strings uses. */
  predicate Below(a: string, b: string) {
    a == "" || (b != "" && (a[0] < b[0] || (a[0] == b[0] && Below(a[1..], b[1..]))))
  }

  lemma {:induction false} BelowTotal(a: string, b: string)
    ensures Below(a, b) || Below(b, a)
  {
    if a != "" && b != "" {
      BelowTotal(a[1..], b[1..]);
    }
  }

  lemma {:induction false} BelowAntisymmetric(a: string, b: string)
    requires Below(a, b) && Below(b, a)
    ensures a == b
  {
    if a != "" {
      BelowAntisymmetric(a[1..], b[1..]);
      assert a == [a[0]] + a[1..] && b == [b[0]] + b[1..];
    }
  }

  lemma {:induction false} BelowTransitive(a: string, b: string, c: string)
    requires Below(a, b) && Below(b, c)
    ensures Below(a, c)
  {
    if a != "" && a[0] == b[0] && b[0] == c[0] {
      BelowTransitive(a[1..], b[1..], c[1..]);
    }
  }

  predicate Sorted(s: seq<string>) {
    forall i, j :: 0 <= i < j < |s| ==> Below(s[i], s[j])
  }

  function Insert(x: string, s: seq<string>): seq<string> {
    if s == [] || Below(x, s[0]) then [x] + s else [s[0]] + Insert(x, s[1..])
  }

  function Sort(s: seq<string>): seq<string> {
    if s == [] then [] else Insert(s[0], Sort(s[1..]))
  }

  lemma {:induction false} InsertKeeps(x: string, s: seq<string>)
    requires Sorted(s)
    ensures Sorted(Insert(x, s)) && multiset(Insert(x, s)) == multiset(s) + multiset{x}
  {
    if s == [] {
    } else if Below(x, s[0]) {
      forall j | 0 <= j < |s|
        ensures Below(x, s[j])
      {
        if j > 0 {
          BelowTransitive(x, s[0], s[j]);
        }
      }
    } else {
      BelowTotal(x, s[0]);
      InsertKeeps(x, s[1..]);
      assert s == [s[0]] + s[1..];
      var rest := Insert(x, s[1..]);
      forall j | 0 <= j < |rest|
        ensures Below(s[0], rest[j])
      {
        assert rest[j] in multiset(rest);
        assert rest[j] == x || rest[j] in s[1..];
      }
    }
  }

  lemma {:induction false} SortSorts(s: seq<string>)
    ensures Sorted(Sort(s)) && multiset(Sort(s)) == multiset(s)
  {
    if s != [] {
      SortSorts(s[1..]);
      InsertKeeps(s[0], Sort(s[1..]));
      assert s == [s[0]] + s[1..];
    }
  }

  lemma {:induction false} SortedUnique(a: seq<string>, b: seq<string>)
    requires Sorted(a) && Sorted(b) && multiset(a) == multiset(b)
    ensures a == b
  {
    if a == [] {
      assert |multiset(b)| == 0;
    } else {
      assert |multiset(b)| == |multiset(a)| == |a|;
      SameHead(a, b);
      Behead(a);
      Behead(b);
      SortedUnique(a[1..], b[1..]);
      assert a == [a[0]] + a[1..] && b == [b[0]] + b[1..];
    }
  }

  lemma Behead(a: seq<string>)
    requires a != []
    ensures multiset(a[1..]) == multiset(a) - multiset{a[0]}
  {
    assert a == [a[0]] + a[1..];
  }

  lemma SameHead(a: seq<string>, b: seq<string>)
    requires Sorted(a) && Sorted(b) && multiset(a) == multiset(b) && a != [] && b != []
    ensures a[0] == b[0]
  {
    assert a[0] in multiset(b) && b[0] in multiset(a);
    assert a[0] in b && b[0] in a;
    if a[0] != b[0] {
      BelowAntisymmetric(a[0], b[0]);
    }
  }

  /** Any two listings of the same names sort to the same sequence; sorting twice changes nothing. */
  lemma SortCanonical(a: seq<string>, b: seq<string>)
    requires multiset(a) == multiset(b)
    ensures Sort(a) == Sort(b) && Sort(Sort(a)) == Sort(a)
  {
    SortSorts(a);
    SortSorts(b);
    SortSorts(Sort(a));
    SortedUnique(Sort(a), Sort(b));
    SortedUnique(Sort(Sort(a)), Sort(a));
  }

  lemma SortMembers(s: seq<string>, x: string)
    ensures x in Sort(s) <==> x in s
  {
    SortSorts(s);
    assert x in s <==> x in multiset(s);
    assert x in Sort(s) <==> x in multiset(Sort(s));
  }
}
