/** Stable sorting of rows, as `orderBy` and `Array.sort` do it. */
module Sorting {

  ghost predicate TotalPreorder<T(!new)>(le: (T, T) -> bool) {
    && (forall x, y :: le(x, y) || le(y, x))
    && (forall x, y, z :: le(x, y) && le(y, z) ==> le(x, z))
  }

  function Insert<T>(x: T, s: seq<T>, le: (T, T) -> bool): seq<T> {
    if s == [] || le(x, s[0]) then [x] + s else [s[0]] + Insert(x, s[1..], le)
  }

  function Sort<T>(s: seq<T>, le: (T, T) -> bool): seq<T> {
    if s == [] then [] else Insert(s[0], Sort(s[1..], le), le)
  }

  ghost predicate Sorted<T(!new)>(s: seq<T>, le: (T, T) -> bool) {
    forall i, j :: 0 <= i < j < |s| ==> le(s[i], s[j])
  }

  /** No two positions rank equal. */
  ghost predicate Strict<T(!new)>(s: seq<T>, le: (T, T) -> bool) {
    forall i, j :: 0 <= i < j < |s| ==> !le(s[j], s[i])
  }

  lemma {:induction false} InsertElements<T>(x: T, s: seq<T>, le: (T, T) -> bool)
    ensures multiset(Insert(x, s, le)) == multiset(s) + multiset{x}
  {
    if s != [] && !le(x, s[0]) {
      InsertElements(x, s[1..], le);
      assert s == [s[0]] + s[1..];
    }
  }

  lemma {:induction false} SortElements<T>(s: seq<T>, le: (T, T) -> bool)
    ensures multiset(Sort(s, le)) == multiset(s)
    ensures |Sort(s, le)| == |s|
  {
    if s != [] {
      SortElements(s[1..], le);
      InsertElements(s[0], Sort(s[1..], le), le);
      assert s == [s[0]] + s[1..];
    }
    assert |multiset(Sort(s, le))| == |multiset(s)|;
  }

  lemma SortMember<T>(s: seq<T>, le: (T, T) -> bool, x: T)
    ensures x in Sort(s, le) <==> x in s
  {
    SortElements(s, le);
    assert x in multiset(s) <==> x in s;
    assert x in multiset(Sort(s, le)) <==> x in Sort(s, le);
  }

  lemma {:induction false} InsertSorted<T(!new)>(x: T, s: seq<T>, le: (T, T) -> bool)
    requires TotalPreorder(le) && Sorted(s, le)
    ensures Sorted(Insert(x, s, le), le)
  {
    if s != [] && !le(x, s[0]) {
      InsertSorted(x, s[1..], le);
      var rest := Insert(x, s[1..], le);
      forall y | y in rest ensures le(s[0], y) {
        InsertElements(x, s[1..], le);
        assert y in multiset(rest);
        assert y == x || y in s[1..];
      }
    }
  }

  lemma {:induction false} SortSorted<T(!new)>(s: seq<T>, le: (T, T) -> bool)
    requires TotalPreorder(le)
    ensures Sorted(Sort(s, le), le)
  {
    if s != [] {
      SortSorted(s[1..], le);
      InsertSorted(s[0], Sort(s[1..], le), le);
    }
  }

  /** Sorting rows of which no two rank equal leaves no two equal neighbours either. */
  lemma {:induction false} InsertStrict<T(!new)>(x: T, s: seq<T>, le: (T, T) -> bool)
    requires TotalPreorder(le) && Strict(s, le)
    requires forall y :: y in s ==> !(le(x, y) && le(y, x))
    ensures Strict(Insert(x, s, le), le)
  {
    if s == [] {
    } else if le(x, s[0]) {
      forall j | 0 <= j < |s| ensures !le(s[j], x) {
        assert s[j] in s && s[0] in s;
        if j > 0 { assert !le(s[j], s[0]); }
      }
    } else {
      InsertStrict(x, s[1..], le);
      var rest := Insert(x, s[1..], le);
      forall y | y in rest ensures !le(y, s[0]) {
        InsertElements(x, s[1..], le);
        assert y in multiset(rest);
        assert y == x || y in s[1..];
      }
    }
  }

  lemma {:induction false} SortStrict<T(!new)>(s: seq<T>, le: (T, T) -> bool)
    requires TotalPreorder(le)
    requires forall i, j :: 0 <= i < j < |s| ==> !(le(s[i], s[j]) && le(s[j], s[i]))
    ensures Strict(Sort(s, le), le)
  {
    if s != [] {
      SortStrict(s[1..], le);
      forall y | y in Sort(s[1..], le) ensures !(le(s[0], y) && le(y, s[0])) {
        SortMember(s[1..], le, y);
        var k :| 0 <= k < |s[1..]| && s[1..][k] == y;
        assert s[k + 1] == y;
      }
      InsertStrict(s[0], Sort(s[1..], le), le);
    }
  }

  lemma Inhabited<T>(s: seq<T>)
    requires s != []
    ensures exists x :: x in s
  {
    assert s[0] in s;
  }

  /** There is only one strict order of given rows. */
  lemma {:induction false} StrictUnique<T(!new)>(a: seq<T>, b: seq<T>, le: (T, T) -> bool)
    requires TotalPreorder(le) && Strict(a, le) && Strict(b, le)
    requires forall x :: x in a <==> x in b
    ensures a == b
  {
    if a == [] {
      if b != [] { Inhabited(b); }
    } else if b == [] {
      Inhabited(a);
    } else {
      assert a[0] in b && b[0] in a;
      assert a[0] == b[0];
      forall x ensures x in a[1..] <==> x in b[1..] {
        TailMember(a, le, x);
        TailMember(b, le, x);
      }
      StrictUnique(a[1..], b[1..], le);
      assert a == [a[0]] + a[1..] && b == [b[0]] + b[1..];
    }
  }

  lemma TailMember<T(!new)>(a: seq<T>, le: (T, T) -> bool, x: T)
    requires TotalPreorder(le) && Strict(a, le) && a != []
    ensures x in a[1..] <==> x in a && x != a[0]
  {
    assert le(a[0], a[0]);
    if x in a && x != a[0] {
      var k :| 0 <= k < |a| && a[k] == x;
      assert a[1..][k - 1] == x;
    }
  }

  /** A strict order repeats no row. */
  lemma {:induction false} StrictOnce<T(!new)>(s: seq<T>, le: (T, T) -> bool, x: T)
    requires TotalPreorder(le) && Strict(s, le)
    ensures multiset(s)[x] <= 1
  {
    if s != [] {
      StrictOnce(s[1..], le, x);
      TailMember(s, le, x);
      assert s == [s[0]] + s[1..];
      assert multiset(s) == multiset{s[0]} + multiset(s[1..]);
    }
  }

  /** Nor does any rearrangement of it. */
  lemma PermutedOnce<T(!new)>(s: seq<T>, a: seq<T>, le: (T, T) -> bool, k: nat, l: nat)
    requires TotalPreorder(le) && Strict(s, le) && multiset(a) == multiset(s)
    requires k < l < |a|
    ensures a[k] != a[l]
  {
    StrictOnce(s, le, a[k]);
    assert a == a[..l] + [a[l]] + a[l + 1..];
    assert a[..l][k] == a[k];
    assert multiset(a)[a[l]] == multiset(a[..l])[a[l]] + 1 + multiset(a[l + 1..])[a[l]];
  }
}
