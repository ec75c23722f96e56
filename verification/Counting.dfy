/** Counting: the members of a sequence that lie in a set, and the sizes of sets. */
module Counting {

  function CountIn(s: seq<nat>, x: set<nat>): nat {
    if s == [] then 0 else CountIn(s[..|s| - 1], x) + if s[|s| - 1] in x then 1 else 0
  }

  lemma {:induction false} CountMonotone(s: seq<nat>, x: set<nat>, y: set<nat>)
    requires forall i | i in s && i in x :: i in y
    ensures CountIn(s, x) <= CountIn(s, y)
  {
    if s != [] {
      assert forall i | i in s[..|s| - 1] :: i in s;
      CountMonotone(s[..|s| - 1], x, y);
    }
  }

  lemma CountSame(s: seq<nat>, x: set<nat>, y: set<nat>)
    requires forall i | i in s :: i in x <==> i in y
    ensures CountIn(s, x) == CountIn(s, y)
  {
    CountMonotone(s, x, y);
    CountMonotone(s, y, x);
  }

  lemma {:induction false} CountAll(s: seq<nat>, x: set<nat>)
    ensures CountIn(s, x) <= |s|
    ensures CountIn(s, x) == |s| <==> forall i | i in s :: i in x
  {
    if s != [] {
      CountAll(s[..|s| - 1], x);
      assert s == s[..|s| - 1] + [s[|s| - 1]];
    }
  }

  lemma {:induction false} CountConcat(s: seq<nat>, t: seq<nat>, x: set<nat>)
    ensures CountIn(s + t, x) == CountIn(s, x) + CountIn(t, x)
  {
    if t == [] {
      assert s + t == s;
    } else {
      assert (s + t)[..|s + t| - 1] == s + t[..|t| - 1];
      CountConcat(s, t[..|t| - 1], x);
    }
  }

  lemma CountRemoved(t: seq<nat>, k: nat, x: set<nat>)
    requires k < |t|
    ensures CountIn(t, x) == CountIn(t[..k] + t[k + 1..], x) + if t[k] in x then 1 else 0
    ensures multiset(t) == multiset(t[..k] + t[k + 1..]) + multiset{t[k]}
  {
    assert t == t[..k] + [t[k]] + t[k + 1..];
    CountConcat(t[..k], t[k + 1..], x);
    CountConcat(t[..k] + [t[k]], t[k + 1..], x);
    assert (t[..k] + [t[k]])[..k] == t[..k];
  }

  lemma MultisetCancel(a: multiset<nat>, b: multiset<nat>, e: nat)
    requires a + multiset{e} == b + multiset{e}
    ensures a == b
  {
    assert a == (a + multiset{e}) - multiset{e};
    assert b == (b + multiset{e}) - multiset{e};
  }

  /** The order does not matter. */
  lemma {:induction false} CountPermuted(s: seq<nat>, t: seq<nat>, x: set<nat>)
    requires multiset(s) == multiset(t)
    ensures CountIn(s, x) == CountIn(t, x)
    decreases |s|
  {
    if s == [] {
      assert |multiset(t)| == 0;
    } else {
      var n := |s| - 1;
      CountRemoved(s, n, x);
      assert s[n] in multiset(t);
      var k :| 0 <= k < |t| && t[k] == s[n];
      CountRemoved(t, k, x);
      var s', t' := s[..n] + s[n + 1..], t[..k] + t[k + 1..];
      MultisetCancel(multiset(s'), multiset(t'), s[n]);
      CountPermuted(s', t', x);
    }
  }

  lemma {:induction false} SubsetSize<T>(s: set<T>, t: set<T>)
    requires s <= t
    ensures |s| <= |t|
    ensures |s| == |t| ==> s == t
  {
    if s != {} {
      var x :| x in s;
      SubsetSize(s - {x}, t - {x});
    }
  }

  lemma {:induction false} BoundedSize(s: set<nat>, k: nat)
    requires forall i | i in s :: i < k
    ensures |s| <= k
    ensures |s| == k ==> forall i: nat | i < k :: i in s
  {
    if k == 0 {
      assert s == {};
    } else {
      BoundedSize(s - {k - 1}, k - 1);
    }
  }

  lemma {:induction false} FullSize(s: set<nat>, k: nat)
    requires forall i: nat | i < k :: i in s
    ensures |s| >= k
  {
    if k > 0 {
      FullSize(s - {k - 1}, k - 1);
    }
  }

  function Members<T>(s: seq<T>): set<T> {
    set x | x in s
  }

  ghost predicate Distinct<T>(s: seq<T>) {
    forall i, j | 0 <= i < j < |s| :: s[i] != s[j]
  }

  lemma {:induction false} DistinctSize<T>(s: seq<T>)
    ensures |Members(s)| <= |s|
    ensures Distinct(s) ==> |Members(s)| == |s|
  {
    if s != [] {
      var n := |s| - 1;
      DistinctSize(s[..n]);
      assert s == s[..n] + [s[n]];
      assert Members(s) == Members(s[..n]) + {s[n]};
    }
  }
}
