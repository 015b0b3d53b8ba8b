/** Sets of numbers, as an ordered container visits them. */
module Ascending {
  lemma {:induction false} LeastExists(s: set<int>)
    requires |s| > 0
    ensures exists k :: k in s && forall j :: j in s ==> k <= j
    decreases s
  {
    if forall x :: x !in s {
      assert false;
    }
    var x :| x in s;
    if s != {x} {
      var t := s - {x};
      assert s == t + {x};
      LeastExists(t);
      var k :| k in t && forall j :: j in t ==> k <= j;
      var least := if x < k then x else k;
      assert forall j :: j in s ==> j == x || j in t;
      assert least in s && forall j :: j in s ==> least <= j;
    }
  }

  function Least(s: set<int>): (k: int)
    requires |s| > 0
    ensures k in s && forall j :: j in s ==> k <= j
  {
    LeastExists(s);
    var k :| k in s && forall j :: j in s ==> k <= j;
    k
  }

  /** In ascending order, each once. */
  predicate Increasing(s: seq<int>) {
    forall i, j :: 0 <= i < j < |s| ==> s[i] < s[j]
  }

  lemma IncreasingMore(s: seq<int>, id: int)
    requires Increasing(s) && forall x :: x in s ==> x < id
    ensures Increasing(s + [id])
  {
    var t := s + [id];
    forall i, j | 0 <= i < j < |t| ensures t[i] < t[j] {
      assert t[i] == s[i] && t[i] in s;
    }
  }
}
