/** Which changes of order leave the length of a way the same, whatever the distances are. */
module Legs {
  import opened Tables
  import opened Collections
  import opened Proximity

  /** A way between two places, without its direction. */
  datatype Leg = Leg(a: Point, b: Point)

  predicate Before(p: Point, q: Point) {
    p.lat < q.lat || (p.lat == q.lat && p.lon <= q.lon)
  }

  function Between(p: Point, q: Point): Leg {
    if Before(p, q) then Leg(p, q) else Leg(q, p)
  }

  /** The legs between different neighbouring places among the first `n` stations. */
  function LegsTo(s: seq<Station>, n: nat): seq<Leg>
    requires n <= |s|
  {
    if n < 2 then []
    else
      var p, q := At(s[n - 2]), At(s[n - 1]);
      LegsTo(s, n - 1) + (if p == q then [] else [Between(p, q)])
  }

  /** How often each leg is travelled. */
  function Travelled(s: seq<Station>): multiset<Leg> {
    multiset(LegsTo(s, |s|))
  }

  function Along(d: Metric): Leg -> real {
    (leg: Leg) => d(leg.a, leg.b)
  }

  /** The length of a way is the sum over its legs. */
  lemma {:induction false} LengthByLegs(d: Metric, s: seq<Station>, n: nat)
    requires PseudoMetric(d) && n <= |s|
    ensures LengthTo(d, s, n) == Sum(LegsTo(s, n), Along(d))
  {
    if n >= 2 {
      LengthByLegs(d, s, n - 1);
      var p, q := At(s[n - 2]), At(s[n - 1]);
      if p == q {
        assert LegsTo(s, n) == LegsTo(s, n - 1);
      } else {
        SumAppend(LegsTo(s, n - 1), Between(p, q), Along(d));
      }
    }
  }

  lemma {:induction false} SumConcat<T>(s: seq<T>, t: seq<T>, f: T -> real)
    ensures Sum(s + t, f) == Sum(s, f) + Sum(t, f)
  {
    if t == [] {
      assert s + t == s;
    } else {
      var n := |t| - 1;
      SumConcat(s, t[..n], f);
      assert s + t == (s + t[..n]) + [t[n]];
      SumAppend(s + t[..n], t[n], f);
    }
  }

  /** A sum depends only on how often each summand occurs. */
  lemma {:induction false} SumPermuted<T>(s: seq<T>, t: seq<T>, f: T -> real)
    requires multiset(s) == multiset(t)
    ensures Sum(s, f) == Sum(t, f)
  {
    if s == [] {
      assert |multiset(t)| == 0;
    } else {
      var n := |s| - 1;
      var x := s[n];
      assert s == s[..n] + [x];
      assert x in multiset(t);
      var k :| 0 <= k < |t| && t[k] == x;
      var others := t[..k] + t[k + 1..];
      assert t == t[..k] + [x] + t[k + 1..];
      assert multiset(others) == multiset(t) - multiset{x};
      SumPermuted(s[..n], others, f);
      SumConcat(t[..k], t[k + 1..], f);
      SumConcat(t[..k] + [x], t[k + 1..], f);
      SumAppend(t[..k], x, f);
    }
  }

  // ----- distances that single out one leg

  /** Different places are 2 apart, except for one leg of length 1. */
  function Singling(leg: Leg): Metric {
    (p: Point, q: Point) => if p == q then 0.0 else if Between(p, q) == leg then 1.0 else 2.0
  }

  lemma SinglingIsMetric(leg: Leg)
    ensures PseudoMetric(Singling(leg))
  {
  }

  lemma {:induction false} SinglingCounts(leg: Leg, s: seq<Station>, n: nat)
    requires n <= |s|
    ensures LengthTo(Singling(leg), s, n) == (2 * |LegsTo(s, n)| - multiset(LegsTo(s, n))[leg]) as real
  {
    if n >= 2 {
      SinglingCounts(leg, s, n - 1);
      var p, q := At(s[n - 2]), At(s[n - 1]);
      if p == q {
        assert LegsTo(s, n) == LegsTo(s, n - 1);
      } else {
        assert multiset(LegsTo(s, n)) == multiset(LegsTo(s, n - 1)) + multiset{Between(p, q)};
      }
    }
  }

  /** No way has a leg from a place to itself. */
  lemma {:induction false} NoStandstill(s: seq<Station>, n: nat, p: Point)
    requires n <= |s|
    ensures Leg(p, p) !in LegsTo(s, n)
  {
    if n >= 2 {
      NoStandstill(s, n - 1, p);
    }
  }

  /** Two ways are equally long for all distances exactly when they travel the same legs equally often. */
  lemma {:induction false} LegsDecideLength(s: seq<Station>, t: seq<Station>)
    ensures (forall d: Metric | PseudoMetric(d) :: PathLength(d, s) == PathLength(d, t)) <==>
            Travelled(s) == Travelled(t)
  {
    var a, b := LegsTo(s, |s|), LegsTo(t, |t|);
    if Travelled(s) == Travelled(t) {
      forall d: Metric | PseudoMetric(d) ensures PathLength(d, s) == PathLength(d, t) {
        SameLegsSameLength(d, s, t);
      }
    }
    if forall d: Metric | PseudoMetric(d) :: PathLength(d, s) == PathLength(d, t) {
      forall leg: Leg ensures 2 * |a| - multiset(a)[leg] == 2 * |b| - multiset(b)[leg] {
        SinglingIsMetric(leg);
        SinglingCounts(leg, s, |s|);
        SinglingCounts(leg, t, |t|);
        assert PathLength(Singling(leg), s) == PathLength(Singling(leg), t);
      }
      var still := Leg(Point(0.0, 0.0), Point(0.0, 0.0));
      NoStandstill(s, |s|, still.a);
      NoStandstill(t, |t|, still.a);
      assert multiset(a)[still] == 0 && multiset(b)[still] == 0;
      assert forall leg: Leg :: multiset(a)[leg] == multiset(b)[leg];
    }
  }

  lemma SameLegsSameLength(d: Metric, s: seq<Station>, t: seq<Station>)
    requires PseudoMetric(d) && Travelled(s) == Travelled(t)
    ensures PathLength(d, s) == PathLength(d, t)
  {
    LengthByLegs(d, s, |s|);
    LengthByLegs(d, t, |t|);
    SumPermuted(LegsTo(s, |s|), LegsTo(t, |t|), Along(d));
  }
}
