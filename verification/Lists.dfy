/** Lists without repetition, lists of lists of numbers, and sets of numbers. */
module Lists {

  ghost predicate NoDup<T>(q: seq<T>) {
    forall i, j :: 0 <= i < j < |q| ==> q[i] != q[j]
  }

  /** TAILQ_REMOVE. */
  function Without(q: seq<nat>, x: nat): (r: seq<nat>) {
    if q == [] then [] else if q[0] == x then q[1..] else [q[0]] + Without(q[1..], x)
  }

  lemma {:induction false} WithoutAbsent(q: seq<nat>, x: nat)
    ensures x !in q ==> Without(q, x) == q
    ensures forall y :: y in Without(q, x) ==> y in q
    ensures |Without(q, x)| <= |q|
  {
    if q != [] { WithoutAbsent(q[1..], x); }
  }

  lemma {:induction false} WithoutMembers(q: seq<nat>, x: nat)
    requires NoDup(q)
    ensures NoDup(Without(q, x))
    ensures forall y :: y in Without(q, x) <==> y in q && y != x
    ensures |Without(q, x)| == |q| - if x in q then 1 else 0
  {
    if q != [] {
      var t := q[1..];
      WithoutMembers(t, x);
      WithoutAbsent(t, x);
      assert q == [q[0]] + t;
      assert q[0] !in t;
      if q[0] != x { NoDupCons(q[0], Without(t, x)); }
    }
  }

  lemma NoDupCons(x: nat, q: seq<nat>)
    requires NoDup(q) && x !in q
    ensures NoDup([x] + q)
  {
  }

  lemma NoDupSnoc(q: seq<nat>, x: nat)
    requires NoDup(q) && x !in q
    ensures NoDup(q + [x])
    ensures forall y :: y in q + [x] <==> y in q || y == x
  {
  }

  ghost function Total(lists: seq<seq<nat>>): (n: nat) {
    if lists == [] then 0 else |lists[0]| + Total(lists[1..])
  }

  lemma {:induction false} TotalUpdate(lists: seq<seq<nat>>, p: nat, q: seq<nat>)
    requires p < |lists|
    ensures Total(lists[p := q]) == Total(lists) - |lists[p]| + |q|
  {
    if p == 0 {
      assert lists[p := q][1..] == lists[1..];
    } else {
      assert lists[p := q][1..] == lists[1..][p - 1 := q];
      TotalUpdate(lists[1..], p - 1, q);
    }
  }

  lemma {:induction false} TotalZero(lists: seq<seq<nat>>, p: nat)
    requires p < |lists| && Total(lists) == 0
    ensures lists[p] == []
  {
    if p > 0 { TotalZero(lists[1..], p - 1); }
  }

  lemma {:induction false} AllEmpty(lists: seq<seq<nat>>)
    requires forall p :: 0 <= p < |lists| ==> lists[p] == []
    ensures Total(lists) == 0
  {
    if lists != [] { AllEmpty(lists[1..]); }
  }

  /** The numbers below n. */
  ghost function Below(n: nat): (s: set<nat>)
    ensures |s| == n && forall x: nat :: x in s <==> x < n
  {
    if n == 0 then {} else Below(n - 1) + {n - 1}
  }

  lemma {:induction false} SubsetFew(a: set<nat>, b: set<nat>)
    requires a <= b
    ensures |a| <= |b|
  {
    assert b == a + (b - a);
  }
}
