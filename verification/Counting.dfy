/**
 Cardinality facts shared by the protocol models.  Every protocol counts the threads that are
 in a given condition; one step of a run changes the condition of one thread only.
 */
module Counting {

  function Bit(b: bool): (n: nat)
    ensures n <= 1
  {
    if b then 1 else 0
  }

  /** Two sets of threads that agree on everyone but `t` differ in size by what happened to `t`. */
  lemma OneMember(before: set<nat>, after: set<nat>, t: nat)
    requires before - {t} == after - {t}
    ensures |after| + Bit(t in before) == |before| + Bit(t in after)
  {
    if t in before {
      assert before == (before - {t}) + {t};
    } else {
      assert before == before - {t};
    }
    if t in after {
      assert after == (after - {t}) + {t};
    } else {
      assert after == after - {t};
    }
  }

  lemma MemberCounts(s: set<nat>, t: nat)
    requires t in s
    ensures |s| >= 1
  {
    assert s == (s - {t}) + {t};
  }

  lemma SubsetCounts(a: set<nat>, b: set<nat>)
    requires a <= b
    ensures |a| <= |b|
  {
    assert b == a + (b - a);
  }
}
