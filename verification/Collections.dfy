/** Counting, adding up and filtering table rows: what `count`, `findMany` and totals need. */
module Collections {

  function Count<T>(s: seq<T>, p: T -> bool): nat {
    if s == [] then 0 else Count(s[..|s| - 1], p) + (if p(s[|s| - 1]) then 1 else 0)
  }

  function Sum<T>(s: seq<T>, f: T -> real): real {
    if s == [] then 0.0 else Sum(s[..|s| - 1], f) + f(s[|s| - 1])
  }

  function Filter<T>(s: seq<T>, p: T -> bool): seq<T> {
    if s == [] then [] else Filter(s[..|s| - 1], p) + (if p(s[|s| - 1]) then [s[|s| - 1]] else [])
  }

  lemma CountAppend<T>(s: seq<T>, x: T, p: T -> bool)
    ensures Count(s + [x], p) == Count(s, p) + (if p(x) then 1 else 0)
  {
    assert (s + [x])[..|s|] == s;
  }

  lemma {:induction false} CountUpdate<T>(s: seq<T>, i: nat, x: T, p: T -> bool)
    requires i < |s|
    ensures Count(s[i := x], p) == Count(s, p) - (if p(s[i]) then 1 else 0) + (if p(x) then 1 else 0)
  {
    var n := |s| - 1;
    if i == n {
      assert s[i := x][..n] == s[..n];
    } else {
      assert s[i := x][..n] == s[..n][i := x];
      CountUpdate(s[..n], i, x, p);
    }
  }

  /** A count is positive exactly when some row matches. */
  lemma {:induction false} CountPositive<T>(s: seq<T>, p: T -> bool)
    ensures Count(s, p) > 0 <==> exists i: nat :: i < |s| && p(s[i])
  {
    if s != [] {
      var n := |s| - 1;
      CountPositive(s[..n], p);
      if p(s[n]) {
        assert n < |s|;
      } else if Count(s[..n], p) > 0 {
        var i: nat :| i < n && p(s[..n][i]);
        assert p(s[i]);
      } else {
        forall i: nat | i < |s| ensures !p(s[i]) {
          if i < n { assert s[..n][i] == s[i]; }
        }
      }
    }
  }

  /** Counts of two pointwise equivalent conditions over rows that may differ elsewhere. */
  lemma {:induction false} CountSame<T>(s: seq<T>, t: seq<T>, p: T -> bool, q: T -> bool)
    requires |s| == |t|
    requires forall i: nat :: i < |s| ==> p(s[i]) == q(t[i])
    ensures Count(s, p) == Count(t, q)
  {
    if s != [] {
      var n := |s| - 1;
      assert forall i: nat :: i < n ==> s[..n][i] == s[i] && t[..n][i] == t[i];
      CountSame(s[..n], t[..n], p, q);
    }
  }

  /** If the rows counted by `p` split into those counted by `q` and those counted by `r`, so do the counts. */
  lemma {:induction false} CountSplit<T>(s: seq<T>, t: seq<T>, u: seq<T>, p: T -> bool, q: T -> bool, r: T -> bool)
    requires |s| == |t| == |u|
    requires forall i: nat :: i < |s| ==> (p(s[i]) <==> q(t[i]) || r(u[i])) && !(q(t[i]) && r(u[i]))
    ensures Count(s, p) == Count(t, q) + Count(u, r)
  {
    if s != [] {
      var n := |s| - 1;
      assert forall i: nat :: i < n ==> s[..n][i] == s[i] && t[..n][i] == t[i] && u[..n][i] == u[i];
      CountSplit(s[..n], t[..n], u[..n], p, q, r);
    }
  }

  lemma SumAppend<T>(s: seq<T>, x: T, f: T -> real)
    ensures Sum(s + [x], f) == Sum(s, f) + f(x)
  {
    assert (s + [x])[..|s|] == s;
  }

  lemma {:induction false} SumUpdate<T>(s: seq<T>, i: nat, x: T, f: T -> real)
    requires i < |s|
    ensures Sum(s[i := x], f) == Sum(s, f) - f(s[i]) + f(x)
  {
    var n := |s| - 1;
    if i == n {
      assert s[i := x][..n] == s[..n];
    } else {
      assert s[i := x][..n] == s[..n][i := x];
      SumUpdate(s[..n], i, x, f);
    }
  }

  lemma {:induction false} SumSplit<T>(s: seq<T>, t: seq<T>, u: seq<T>, f: T -> real, g: T -> real, h: T -> real)
    requires |s| == |t| == |u|
    requires forall i: nat :: i < |s| ==> f(s[i]) == g(t[i]) + h(u[i])
    ensures Sum(s, f) == Sum(t, g) + Sum(u, h)
  {
    if s != [] {
      var n := |s| - 1;
      assert forall i: nat :: i < n ==> s[..n][i] == s[i] && t[..n][i] == t[i] && u[..n][i] == u[i];
      SumSplit(s[..n], t[..n], u[..n], f, g, h);
    }
  }

  lemma {:induction false} SumSame<T>(s: seq<T>, t: seq<T>, f: T -> real, g: T -> real)
    requires |s| == |t|
    requires forall i: nat :: i < |s| ==> f(s[i]) == g(t[i])
    ensures Sum(s, f) == Sum(t, g)
  {
    if s != [] {
      var n := |s| - 1;
      assert forall i: nat :: i < n ==> s[..n][i] == s[i] && t[..n][i] == t[i];
      SumSame(s[..n], t[..n], f, g);
    }
  }

  lemma {:induction false} FilterMember<T>(s: seq<T>, p: T -> bool, x: T)
    ensures x in Filter(s, p) <==> x in s && p(x)
  {
    if s != [] {
      var n := |s| - 1;
      FilterMember(s[..n], p, x);
      assert s == s[..n] + [s[n]];
    }
  }

  lemma FilterAppend<T>(s: seq<T>, x: T, p: T -> bool)
    ensures Filter(s + [x], p) == Filter(s, p) + (if p(x) then [x] else [])
  {
    assert (s + [x])[..|s|] == s;
  }

  lemma {:induction false} FilterConcat<T>(s: seq<T>, t: seq<T>, p: T -> bool)
    ensures Filter(s + t, p) == Filter(s, p) + Filter(t, p)
  {
    if t == [] {
      assert s + t == s;
    } else {
      var n := |t| - 1;
      FilterConcat(s, t[..n], p);
      assert s + t == (s + t[..n]) + [t[n]];
      FilterAppend(s + t[..n], t[n], p);
    }
  }

  lemma {:induction false} FilterKeepsAll<T>(s: seq<T>, p: T -> bool)
    requires forall i: nat :: i < |s| ==> p(s[i])
    ensures Filter(s, p) == s
  {
    if s != [] {
      var n := |s| - 1;
      assert forall i: nat :: i < n ==> s[..n][i] == s[i];
      FilterKeepsAll(s[..n], p);
      assert s == s[..n] + [s[n]];
    }
  }

  lemma {:induction false} FilterKeepsNone<T>(s: seq<T>, p: T -> bool)
    requires forall i: nat :: i < |s| ==> !p(s[i])
    ensures Filter(s, p) == []
  {
    if s != [] {
      var n := |s| - 1;
      assert forall i: nat :: i < n ==> s[..n][i] == s[i];
      FilterKeepsNone(s[..n], p);
    }
  }

  /** Filtering on a condition and on its negation keeps every row exactly once. */
  lemma {:induction false} FilterPartition<T>(s: seq<T>, p: T -> bool, q: T -> bool)
    requires forall i: nat :: i < |s| ==> p(s[i]) == !q(s[i])
    ensures multiset(s) == multiset(Filter(s, p) + Filter(s, q))
  {
    if s != [] {
      var n := |s| - 1;
      var front, x := s[..n], s[n];
      assert forall i: nat :: i < n ==> front[i] == s[i];
      FilterPartition(front, p, q);
      var a, b := Filter(front, p), Filter(front, q);
      assert s == front + [x];
      if p(x) {
        assert Filter(s, p) == a + [x];
        assert Filter(s, q) == b;
      } else {
        assert Filter(s, p) == a;
        assert Filter(s, q) == b + [x];
      }
      MultisetMiddle(front, a, b, x);
    }
  }

  /** Putting the same element behind a list and behind either half of a rearrangement of it. */
  lemma MultisetMiddle<T>(s: seq<T>, a: seq<T>, b: seq<T>, x: T)
    requires multiset(s) == multiset(a + b)
    ensures multiset(s + [x]) == multiset(a + (b + [x])) == multiset((a + [x]) + b)
  {
  }
}
