/**
 Texts joined by a separator come apart again when the part before it does not hold it.
 */
module Texts {

  lemma CutAt(c: char, a: string, r: string, a': string, r': string)
    requires c !in a && c !in a' && a + [c] + r == a' + [c] + r'
    ensures a == a' && r == r'
  {
    var k := a + [c] + r;
    assert k[|a|] == c && k[|a'|] == c;
    assert forall i :: 0 <= i < |a| ==> k[i] == a[i];
    assert forall i :: 0 <= i < |a'| ==> k[i] == a'[i];
    assert |a| == |a'|;
    assert a == k[..|a|] && a' == k[..|a'|];
    assert r == k[|a| + 1..] && r' == k[|a'| + 1..];
  }
}
