/** What is kept of a sequence, said by rank. */
module Filters {

  /** How many elements to keep stand before position i. */
  function Rank<T>(s: seq<T>, keep: T -> bool, i: nat): nat
    requires i <= |s|
  {
    if i == 0 then 0 else Rank(s, keep, i - 1) + if keep(s[i - 1]) then 1 else 0
  }

  /** Each element to keep stands in `kept` at its rank, and nothing else stands there. */
  ghost predicate Filtered<T>(s: seq<T>, keep: T -> bool, kept: seq<T>) {
    && |kept| == Rank(s, keep, |s|)
    && forall i :: 0 <= i < |s| && keep(s[i]) ==> Stands(s, keep, kept, i)
  }

  ghost predicate Stands<T>(s: seq<T>, keep: T -> bool, kept: seq<T>, i: nat)
    requires i < |s|
  {
    Rank(s, keep, i) < |kept| && kept[Rank(s, keep, i)] == s[i]
  }

  lemma {:induction false} RankOfFront<T>(a: seq<T>, b: seq<T>, keep: T -> bool, i: nat)
    requires i <= |a|
    ensures Rank(a + b, keep, i) == Rank(a, keep, i)
    decreases i
  {
    if i > 0 {
      RankOfFront(a, b, keep, i - 1);
    }
  }

  lemma {:induction false} RankOfBack<T>(a: seq<T>, b: seq<T>, keep: T -> bool, i: nat)
    requires i <= |b|
    ensures Rank(a + b, keep, |a| + i) == Rank(a, keep, |a|) + Rank(b, keep, i)
    decreases i
  {
    if i > 0 {
      RankOfBack(a, b, keep, i - 1);
    } else {
      RankOfFront(a, b, keep, |a|);
    }
  }

  lemma FilteredOne<T>(x: T, keep: T -> bool)
    ensures Filtered([x], keep, if keep(x) then [x] else [])
  {
    assert Rank([x], keep, 1) == Rank([x], keep, 0) + if keep(x) then 1 else 0;
  }

  lemma FilteredJoins<T>(a: seq<T>, x: seq<T>, b: seq<T>, y: seq<T>, keep: T -> bool)
    requires Filtered(a, keep, x) && Filtered(b, keep, y)
    ensures Filtered(a + b, keep, x + y)
  {
    RankOfBack(a, b, keep, |b|);
    forall i | 0 <= i < |a + b| && keep((a + b)[i])
      ensures Stands(a + b, keep, x + y, i)
    {
      if i < |a| {
        RankOfFront(a, b, keep, i);
        assert Stands(a, keep, x, i);
      } else {
        RankOfBack(a, b, keep, i - |a|);
        assert Stands(b, keep, y, i - |a|);
      }
    }
  }

  lemma {:induction false} RankOfAll<T>(s: seq<T>, keep: T -> bool, i: nat)
    requires i <= |s| && forall k :: 0 <= k < |s| ==> keep(s[k])
    ensures Rank(s, keep, i) == i
    decreases i
  {
    if i > 0 {
      RankOfAll(s, keep, i - 1);
    }
  }

  /** When every element is to be kept, all is kept. */
  lemma FilteredAll<T>(s: seq<T>, keep: T -> bool, kept: seq<T>)
    requires Filtered(s, keep, kept) && forall k :: 0 <= k < |s| ==> keep(s[k])
    ensures kept == s
  {
    RankOfAll(s, keep, |s|);
    forall i | 0 <= i < |s|
      ensures kept[i] == s[i]
    {
      RankOfAll(s, keep, i);
      assert Stands(s, keep, kept, i);
    }
  }
}
