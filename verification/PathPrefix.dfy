/**
 Path-prefix matching of the purge table, set against the reading of a path as its segments.
 */
module PathPrefix {

  /** The part of a request URI before its first question mark. */
  function PathOf(uri: string): (p: string)
    ensures p <= uri && '?' !in p
    ensures p == uri || uri[|p|] == '?'
  {
    if uri == "" || uri[0] == '?' then "" else [uri[0]] + PathOf(uri[1..])
  }

  /** Trims every trailing slash. */
  function Normalize(p: string): string {
    if p != "" && p[|p| - 1] == '/' then Normalize(p[..|p| - 1]) else p
  }

  predicate MatchPrefix(path: string, pre: string) {
    pre == "" || path == pre || pre + "/" <= path
  }

  // ----- segments

  /** The pieces between slashes; there is always at least one. */
  function Split(s: string): (r: seq<string>)
    ensures |r| > 0
  {
    if s == "" then [""]
    else
      var r := Split(s[1..]);
      if s[0] == '/' then [""] + r else [[s[0]] + r[0]] + r[1..]
  }

  function TrimEmpty(segments: seq<string>): seq<string> {
    if segments != [] && segments[|segments| - 1] == "" then TrimEmpty(segments[..|segments| - 1]) else segments
  }

  /** A path lies under a prefix when it begins with the prefix's segments, trailing empty ones aside. */
  predicate Covers(path: string, prefix: string) {
    TrimEmpty(Split(prefix)) <= Split(path)
  }

  lemma ConsPrefix<T>(x: T, p: seq<T>, y: T, q: seq<T>)
    ensures [x] + p <= [y] + q <==> x == y && p <= q
  {
    var p', q' := [x] + p, [y] + q;
    assert p'[0] == x && q'[0] == y && p'[1..] == p && q'[1..] == q;
    if p' <= q' {
      assert p' == q'[..|p'|];
      assert p == q[..|p|];
    }
  }

  lemma {:induction false} SplitPrefix(pre: string, path: string)
    ensures Split(pre) <= Split(path) <==> path == pre || pre + "/" <= path
  {
    if pre == "" {
      assert Split(pre) <= Split(path) <==> Split(path)[0] == "";
    } else if path == "" {
      assert |Split(pre)| > 1 || Split(pre)[0] != Split(path)[0];
    } else {
      SplitPrefix(pre[1..], path[1..]);
      var p, q := Split(pre[1..]), Split(path[1..]);
      assert path == pre <==> path[0] == pre[0] && path[1..] == pre[1..];
      assert pre + "/" == [pre[0]] + (pre[1..] + "/") && path == [path[0]] + path[1..];
      ConsPrefix(pre[0], pre[1..] + "/", path[0], path[1..]);
      SplitCons(pre[0], p, path[0], q);
    }
  }

  lemma SplitCons(c: char, p: seq<string>, d: char, q: seq<string>)
    requires |p| > 0 && |q| > 0
    ensures var p' := if c == '/' then [""] + p else [[c] + p[0]] + p[1..];
            var q' := if d == '/' then [""] + q else [[d] + q[0]] + q[1..];
            p' <= q' <==> c == d && p <= q
  {
    var x, y := if c == '/' then "" else [c] + p[0], if d == '/' then "" else [d] + q[0];
    var p', q' := if c == '/' then p else p[1..], if d == '/' then q else q[1..];
    ConsPrefix(x, p', y, q');
    if c != '/' && d != '/' {
      assert p == [p[0]] + p[1..] && q == [q[0]] + q[1..];
      ConsPrefix(p[0], p[1..], q[0], q[1..]);
      assert x == y <==> c == d && p[0] == q[0] by {
        assert x[0] == c && x[1..] == p[0] && y[0] == d && y[1..] == q[0];
      }
    }
  }

  lemma {:induction false} SplitSlash(s: string)
    ensures Split(s + "/") == Split(s) + [""]
  {
    if s == "" {
      assert (s + "/")[1..] == "";
    } else {
      SplitSlash(s[1..]);
      assert (s + "/")[1..] == s[1..] + "/";
      var r := Split(s[1..]);
      assert (r + [""])[1..] == r[1..] + [""];
    }
  }

  lemma {:induction false} LastSegment(s: string)
    requires s != "" && s[|s| - 1] != '/'
    ensures Split(s)[|Split(s)| - 1] != ""
  {
    if |s| > 1 {
      LastSegment(s[1..]);
    }
  }

  lemma {:induction false} TrimSegments(p: string)
    ensures TrimEmpty(Split(p)) == if Normalize(p) == "" then [] else Split(Normalize(p))
  {
    if p == "" {
      assert Split(p)[..0] == [];
    } else if p[|p| - 1] == '/' {
      var q := p[..|p| - 1];
      assert p == q + "/";
      SplitSlash(q);
      assert Split(p)[..|Split(p)| - 1] == Split(q);
      TrimSegments(q);
    } else {
      LastSegment(p);
    }
  }

  /** Matching the trimmed prefix on a path boundary is the same as covering by segments, for every
      prefix an operator may pass, trailing slashes included. */
  lemma MatchIsCover(path: string, prefix: string)
    ensures MatchPrefix(path, Normalize(prefix)) <==> Covers(path, prefix)
  {
    TrimSegments(prefix);
    SplitPrefix(Normalize(prefix), path);
  }
}
