/** Ordering stations by nearest neighbour, and route lengths. */
module Proximity {
  import opened Options
  import opened Tables
  import opened Collections

  datatype Station = Station(id: Id, route: Id, lat: Option<real>, lon: Option<real>, sequence: int)

  datatype Point = Point(lat: real, lon: real)

  /** The great-circle distance of the geometry library, of which only this is used. */
  type Metric = (Point, Point) -> real

  ghost predicate PseudoMetric(d: Metric) {
    && (forall a, b :: d(a, b) >= 0.0)
    && (forall a :: d(a, a) == 0.0)
    && (forall a, b :: d(a, b) == d(b, a))
    && (forall a, b, c :: d(a, c) <= d(a, b) + d(b, c))
  }

  predicate Located(s: Station) { s.lat.Some? && s.lon.Some? }

  predicate Unlocated(s: Station) { s.lat.None? || s.lon.None? }

  /** A station's position, a missing coordinate read as 0. */
  function At(s: Station): Point {
    Point(s.lat.Or(0.0), s.lon.Or(0.0))
  }

  /** Index of the first of the nearest among the first `n` of `rest`. */
  function Nearest(d: Metric, from: Point, rest: seq<Station>, n: nat): (k: nat)
    requires 1 <= n <= |rest|
    ensures k < n
    ensures forall i :: 0 <= i < n ==> d(from, At(rest[k])) <= d(from, At(rest[i]))
    ensures forall i :: 0 <= i < k ==> d(from, At(rest[k])) < d(from, At(rest[i]))
  {
    if n == 1 then 0
    else
      var k := Nearest(d, from, rest, n - 1);
      if d(from, At(rest[n - 1])) < d(from, At(rest[k])) then n - 1 else k
  }

  function Without<T>(s: seq<T>, k: nat): (r: seq<T>)
    requires k < |s|
    ensures |r| == |s| - 1
  {
    s[..k] + s[k + 1..]
  }

  /** The stations of `rest` in greedy order from `current`. */
  function Chain(d: Metric, current: Station, rest: seq<Station>): seq<Station>
    decreases |rest|
  {
    if rest == [] then []
    else
      var k := Nearest(d, At(current), rest, |rest|);
      [rest[k]] + Chain(d, rest[k], Without(rest, k))
  }

  function OrderByProximity(d: Metric, stations: seq<Station>): seq<Station> {
    var located := Filter(stations, Located);
    if located == [] then stations
    else [located[0]] + Chain(d, located[0], located[1..]) + Filter(stations, Unlocated)
  }

  /** The inner loop: keep the first of the nearest stations seen so far. */
  method FindNearest(d: Metric, current: Station, rest: seq<Station>) returns (closestIndex: nat)
    requires rest != []
    ensures closestIndex == Nearest(d, At(current), rest, |rest|)
  {
    closestIndex := 0;
    var closestDistance := d(At(current), At(rest[0]));
    for i := 1 to |rest|
      invariant closestIndex == Nearest(d, At(current), rest, i)
      invariant closestDistance == d(At(current), At(rest[closestIndex]))
    {
      var dist := d(At(current), At(rest[i]));
      if dist < closestDistance {
        closestDistance := dist;
        closestIndex := i;
      }
    }
  }

  lemma ChainStep(d: Metric, current: Station, rest: seq<Station>, front: seq<Station>)
    requires rest != []
    ensures var k := Nearest(d, At(current), rest, |rest|);
            front + Chain(d, current, rest) == (front + [rest[k]]) + Chain(d, rest[k], rest[..k] + rest[k + 1..])
  {
    var k := Nearest(d, At(current), rest, |rest|);
    var tail := Chain(d, rest[k], rest[..k] + rest[k + 1..]);
    assert Chain(d, current, rest) == [rest[k]] + tail;
    assert front + ([rest[k]] + tail) == (front + [rest[k]]) + tail;
  }

  /** The loop as the service runs it: take the nearest out of the remaining stations until none is left. */
  method OrderStationsByProximity(d: Metric, stations: seq<Station>) returns (result: seq<Station>)
    ensures result == OrderByProximity(d, stations)
  {
    if |stations| == 0 { return []; }
    var located := Filter(stations, Located);
    var unlocated := Filter(stations, Unlocated);
    if |located| == 0 { return stations; }
    var remaining := located;
    var current := remaining[0];
    remaining := remaining[1..];
    var ordered := [current];
    ghost var goal := [located[0]] + Chain(d, located[0], located[1..]);
    while |remaining| > 0
      invariant ordered + Chain(d, current, remaining) == goal
      decreases |remaining|
    {
      var closestIndex := FindNearest(d, current, remaining);
      ChainStep(d, current, remaining, ordered);
      current := remaining[closestIndex];
      remaining := remaining[..closestIndex] + remaining[closestIndex + 1..];
      ordered := ordered + [current];
    }
    assert ordered + Chain(d, current, []) == ordered;
    result := ordered + unlocated;
  }

  // ----- what the order is

  lemma WithoutElements<T>(s: seq<T>, k: nat)
    requires k < |s|
    ensures multiset(s) == multiset{s[k]} + multiset(Without(s, k))
  {
    assert s == s[..k] + [s[k]] + s[k + 1..];
  }

  lemma {:induction false} ChainPermutes(d: Metric, current: Station, rest: seq<Station>)
    ensures multiset(Chain(d, current, rest)) == multiset(rest)
    decreases |rest|
  {
    if rest != [] {
      var k := Nearest(d, At(current), rest, |rest|);
      var tail := Chain(d, rest[k], Without(rest, k));
      ChainPermutes(d, rest[k], Without(rest, k));
      WithoutElements(rest, k);
      assert multiset([rest[k]] + tail) == multiset{rest[k]} + multiset(tail);
    }
  }

  /** The chain of all located stations. */
  function Tour(d: Metric, located: seq<Station>): (r: seq<Station>)
    requires located != []
  {
    [located[0]] + Chain(d, located[0], located[1..])
  }

  lemma TourPermutes(d: Metric, located: seq<Station>)
    requires located != []
    ensures multiset(Tour(d, located)) == multiset(located) && |Tour(d, located)| == |located|
  {
    ChainPermutes(d, located[0], located[1..]);
    assert located == [located[0]] + located[1..];
    assert |multiset(Tour(d, located))| == |multiset(located)|;
  }

  lemma NoneLocated(s: seq<Station>)
    requires Filter(s, Located) == []
    ensures Filter(s, Unlocated) == s && forall i: nat :: i < |s| ==> !Located(s[i])
  {
    forall i: nat | i < |s| ensures !Located(s[i]) {
      assert s[i] in s;
      FilterMember(s, Located, s[i]);
    }
    FilterKeepsAll(s, Unlocated);
  }

  /** The order is a permutation of the stations. */
  lemma OrderPermutes(d: Metric, stations: seq<Station>)
    ensures multiset(OrderByProximity(d, stations)) == multiset(stations)
  {
    var located, unlocated := Filter(stations, Located), Filter(stations, Unlocated);
    if located != [] {
      FilterPartition(stations, Located, Unlocated);
      TourPermutes(d, located);
      assert multiset(located + unlocated) == multiset(located) + multiset(unlocated);
      assert multiset(Tour(d, located) + unlocated) == multiset(Tour(d, located)) + multiset(unlocated);
      assert OrderByProximity(d, stations) == Tour(d, located) + unlocated;
    }
  }

  /** Located stations come first, led by the first of them; the others follow in their original order. */
  lemma {:induction false} OrderParts(d: Metric, stations: seq<Station>)
    ensures var located := Filter(stations, Located);
            var ordered := OrderByProximity(d, stations);
            && |located| <= |ordered| && ordered[|located|..] == Filter(stations, Unlocated)
            && multiset(ordered[..|located|]) == multiset(located)
            && (located != [] ==> ordered[0] == located[0] && ordered[..|located|] == Tour(d, located))
            && (forall x :: x in located <==> x in stations && x.lat.Some? && x.lon.Some?)
            && (forall x :: x in Filter(stations, Unlocated) <==> x in stations && (x.lat.None? || x.lon.None?))
  {
    var located := Filter(stations, Located);
    forall x
      ensures x in located <==> x in stations && x.lat.Some? && x.lon.Some?
      ensures x in Filter(stations, Unlocated) <==> x in stations && (x.lat.None? || x.lon.None?)
    {
      FilterMember(stations, Located, x);
      FilterMember(stations, Unlocated, x);
    }
    if located == [] {
      NoneLocated(stations);
    } else {
      TourPermutes(d, located);
      assert OrderByProximity(d, stations) == Tour(d, located) + Filter(stations, Unlocated);
    }
  }

  /** The station after position `i` is at least as near to it as the one at position `j`. */
  ghost predicate NextNearer(d: Metric, s: seq<Station>, i: nat, j: nat)
    requires i + 1 < |s| && j < |s|
  {
    d(At(s[i]), At(s[i + 1])) <= d(At(s[i]), At(s[j]))
  }

  /**
   A nearest-neighbour tour: behind a station without coordinates there is none with, and every next
   located station is at least as near to the one before as every located station after it.
   */
  ghost predicate GreedyTour(d: Metric, s: seq<Station>) {
    && (forall i, j :: 0 <= i < j < |s| && Located(s[j]) ==> Located(s[i]))
    && (forall i: nat, j: nat | i + 1 < j < |s| && Located(s[j]) :: NextNearer(d, s, i, j))
  }

  /** The nearest-neighbour condition on a chain, from the station it starts at. */
  ghost predicate GreedyFrom(d: Metric, current: Station, s: seq<Station>) {
    && (forall j :: 0 <= j < |s| ==> d(At(current), At(s[0])) <= d(At(current), At(s[j])))
    && (forall i: nat, j: nat | i + 1 < j < |s| :: NextNearer(d, s, i, j))
  }

  lemma GreedyCons(d: Metric, current: Station, first: Station, tail: seq<Station>)
    requires GreedyFrom(d, first, tail)
    requires forall j :: 0 <= j < |tail| ==> d(At(current), At(first)) <= d(At(current), At(tail[j]))
    ensures GreedyFrom(d, current, [first] + tail)
  {
    var s := [first] + tail;
    forall i: nat, j: nat | i + 1 < j < |s| ensures NextNearer(d, s, i, j) {
      if i > 0 { assert NextNearer(d, tail, i - 1, j - 1); }
    }
  }

  lemma {:induction false} ChainGreedy(d: Metric, current: Station, rest: seq<Station>)
    ensures GreedyFrom(d, current, Chain(d, current, rest))
    decreases |rest|
  {
    if rest != [] {
      var k := Nearest(d, At(current), rest, |rest|);
      var others := Without(rest, k);
      var tail := Chain(d, rest[k], others);
      ChainGreedy(d, rest[k], others);
      ChainPermutes(d, rest[k], others);
      forall j | 0 <= j < |tail| ensures d(At(current), At(rest[k])) <= d(At(current), At(tail[j])) {
        assert tail[j] in multiset(others);
        assert tail[j] in rest;
      }
      GreedyCons(d, current, rest[k], tail);
    }
  }

  /** A tour that is greedy from its first station on, followed by stations without coordinates. */
  lemma JoinedGreedy(d: Metric, current: Station, chain: seq<Station>, others: seq<Station>)
    requires GreedyFrom(d, current, chain)
    requires Located(current) && forall i: nat :: i < |chain| ==> Located(chain[i])
    requires forall i: nat :: i < |others| ==> !Located(others[i])
    ensures GreedyTour(d, [current] + chain + others)
  {
    var s := [current] + chain + others;
    forall i: nat | i < |s| ensures Located(s[i]) <==> i < 1 + |chain| {
      if 0 < i <= |chain| { assert s[i] == chain[i - 1]; }
      if i > |chain| { assert s[i] == others[i - 1 - |chain|]; }
    }
    forall i: nat, j: nat | i + 1 < j < |s| && Located(s[j]) ensures NextNearer(d, s, i, j) {
      assert s[j] == chain[j - 1] && s[i + 1] == chain[i];
      if i > 0 {
        assert s[i] == chain[i - 1];
        assert NextNearer(d, chain, i - 1, j - 1);
      }
    }
  }

  /** The order produced is a nearest-neighbour tour. */
  lemma OrderGreedy(d: Metric, stations: seq<Station>)
    ensures GreedyTour(d, OrderByProximity(d, stations))
  {
    var located, unlocated := Filter(stations, Located), Filter(stations, Unlocated);
    if located == [] {
      NoneLocated(stations);
    } else {
      var chain := Chain(d, located[0], located[1..]);
      ChainGreedy(d, located[0], located[1..]);
      TourPermutes(d, located);
      forall i: nat | i < |chain| ensures Located(chain[i]) {
        assert Tour(d, located)[i + 1] == chain[i];
        assert chain[i] in multiset(located);
        FilterMember(stations, Located, chain[i]);
      }
      forall i: nat | i < |unlocated| ensures !Located(unlocated[i]) {
        FilterMember(stations, Unlocated, unlocated[i]);
      }
      FilterMember(stations, Located, located[0]);
      JoinedGreedy(d, located[0], chain, unlocated);
    }
  }

  lemma GreedyTail(d: Metric, current: Station, rest: seq<Station>)
    requires GreedyFrom(d, current, rest) && rest != []
    ensures Nearest(d, At(current), rest, |rest|) == 0
    ensures GreedyFrom(d, rest[0], rest[1..])
  {
    var tail := rest[1..];
    forall j | 0 <= j < |tail| ensures d(At(rest[0]), At(tail[0])) <= d(At(rest[0]), At(tail[j])) {
      if j > 0 { assert NextNearer(d, rest, 0, j + 1); }
    }
    forall i: nat, j: nat | i + 1 < j < |tail| ensures NextNearer(d, tail, i, j) {
      assert NextNearer(d, rest, i + 1, j + 1);
    }
  }

  lemma ChainFirst(d: Metric, current: Station, rest: seq<Station>, tail: seq<Station>)
    requires rest != [] && Nearest(d, At(current), rest, |rest|) == 0
    requires rest[1..] == tail && Chain(d, rest[0], tail) == tail
    ensures Chain(d, current, rest) == [rest[0]] + tail
  {
    assert Without(rest, 0) == tail;
  }

  lemma HeadTail<T>(s: seq<T>)
    requires s != []
    ensures [s[0]] + s[1..] == s
  {
  }

  lemma {:induction false} ChainFixed(d: Metric, current: Station, rest: seq<Station>)
    requires GreedyFrom(d, current, rest)
    ensures Chain(d, current, rest) == rest
    decreases |rest|
  {
    if rest != [] {
      GreedyTail(d, current, rest);
      ChainFixed(d, rest[0], rest[1..]);
      ChainFirst(d, current, rest, rest[1..]);
      HeadTail(rest);
    }
  }

  /** A list split where its located stations end. */
  lemma SplitLocated(a: seq<Station>, b: seq<Station>)
    requires forall i: nat :: i < |a| ==> Located(a[i])
    requires forall i: nat :: i < |b| ==> !Located(b[i])
    ensures Filter(a + b, Located) == a && Filter(a + b, Unlocated) == b
  {
    FilterConcat(a, b, Located);
    FilterConcat(a, b, Unlocated);
    FilterKeepsAll(a, Located);
    FilterKeepsNone(b, Located);
    FilterKeepsNone(a, Unlocated);
    FilterKeepsAll(b, Unlocated);
  }

  function LeadingLocated(s: seq<Station>): (n: nat)
    ensures n <= |s| && (forall i :: 0 <= i < n ==> Located(s[i])) && (n < |s| ==> !Located(s[n]))
  {
    if s == [] || !Located(s[0]) then 0 else 1 + LeadingLocated(s[1..])
  }

  /** The converse of joining: the located stations of a tour are greedy from the first on. */
  lemma TourGreedyFrom(d: Metric, s: seq<Station>, n: nat)
    requires GreedyTour(d, s) && 1 <= n <= |s| && forall i: nat :: i < n ==> Located(s[i])
    ensures GreedyFrom(d, s[0], s[1..n])
  {
    var rest := s[1..n];
    forall j | 0 <= j < |rest| ensures d(At(s[0]), At(rest[0])) <= d(At(s[0]), At(rest[j])) {
      if j > 0 { assert NextNearer(d, s, 0, j + 1); }
    }
    forall i: nat, j: nat | i + 1 < j < |rest| ensures NextNearer(d, rest, i, j) {
      assert NextNearer(d, s, i + 1, j + 1);
    }
  }

  /** Ordering a list whose located part is a chain from its first station. */
  lemma OrderJoined(d: Metric, a: seq<Station>, b: seq<Station>)
    requires forall i: nat :: i < |a| ==> Located(a[i])
    requires forall i: nat :: i < |b| ==> !Located(b[i])
    requires a != [] ==> Chain(d, a[0], a[1..]) == a[1..]
    ensures OrderByProximity(d, a + b) == a + b
  {
    SplitLocated(a, b);
    if a != [] {
      HeadTail(a);
    }
  }

  lemma TourSplits(d: Metric, s: seq<Station>)
    requires GreedyTour(d, s)
    ensures var b := s[LeadingLocated(s)..]; forall i: nat :: i < |b| ==> !Located(b[i])
  {
    var n := LeadingLocated(s);
    var b := s[n..];
    forall i: nat | i < |b| ensures !Located(b[i]) {
      assert b[i] == s[n + i];
    }
  }

  lemma TourChained(d: Metric, s: seq<Station>, n: nat)
    requires GreedyTour(d, s) && 1 <= n <= |s| && forall i: nat :: i < n ==> Located(s[i])
    ensures var a := s[..n]; Chain(d, a[0], a[1..]) == a[1..]
  {
    TourGreedyFrom(d, s, n);
    assert s[..n][1..] == s[1..n];
    ChainFixed(d, s[0], s[1..n]);
  }

  lemma GreedyFixed(d: Metric, s: seq<Station>)
    requires GreedyTour(d, s)
    ensures OrderByProximity(d, s) == s
  {
    var n := LeadingLocated(s);
    TourSplits(d, s);
    if n > 0 {
      TourChained(d, s, n);
    }
    OrderJoined(d, s[..n], s[n..]);
    assert s[..n] + s[n..] == s;
  }

  /** The nearest-neighbour tours are exactly the lists that ordering leaves unchanged. */
  lemma FixedExactlyGreedy(d: Metric, s: seq<Station>)
    ensures OrderByProximity(d, s) == s <==> GreedyTour(d, s)
  {
    if GreedyTour(d, s) {
      GreedyFixed(d, s);
    }
    OrderGreedy(d, s);
  }

  /** Ordering twice is ordering once. */
  lemma {:induction false} OrderIdempotent(d: Metric, stations: seq<Station>)
    ensures OrderByProximity(d, OrderByProximity(d, stations)) == OrderByProximity(d, stations)
  {
    OrderGreedy(d, stations);
    FixedExactlyGreedy(d, OrderByProximity(d, stations));
  }

  // ----- route length

  /** Length of the way through the first `n` stations. */
  function LengthTo(d: Metric, s: seq<Station>, n: nat): real
    requires n <= |s|
  {
    if n < 2 then 0.0 else LengthTo(d, s, n - 1) + d(At(s[n - 2]), At(s[n - 1]))
  }

  function PathLength(d: Metric, s: seq<Station>): real {
    LengthTo(d, s, |s|)
  }

  /** Each further station adds its distance from the one before; a missing coordinate counts as 0. */
  lemma PathGrows(d: Metric, s: seq<Station>, a: Station, b: Station)
    ensures PathLength(d, []) == PathLength(d, [a]) == 0.0
    ensures PathLength(d, s + [a] + [b]) == PathLength(d, s + [a]) +
              d(Point(if a.lat.Some? then a.lat.value else 0.0, if a.lon.Some? then a.lon.value else 0.0),
                Point(if b.lat.Some? then b.lat.value else 0.0, if b.lon.Some? then b.lon.value else 0.0))
  {
    SamePrefix(d, s + [a], s + [a] + [b], |s| + 1);
  }

  lemma {:induction false} SamePrefix(d: Metric, s: seq<Station>, t: seq<Station>, n: nat)
    requires n <= |s| <= |t| && s == t[..|s|]
    ensures LengthTo(d, s, n) == LengthTo(d, t, n)
  {
    if n >= 2 {
      SamePrefix(d, s, t, n - 1);
    }
  }

  /** The summing loop over consecutive located stations. */
  method CalculateTotalRouteDistance(d: Metric, stations: seq<Station>) returns (total: real)
    ensures total == PathLength(d, Filter(stations, Located))
  {
    if |stations| < 2 {
      if |stations| == 1 { assert stations == stations[..0] + [stations[0]]; assert stations[..0] == []; }
      return 0.0;
    }
    var located := Filter(stations, Located);
    if |located| < 2 { return 0.0; }
    total := 0.0;
    for i := 0 to |located| - 1
      invariant total == LengthTo(d, located, i + 1)
    {
      total := total + d(At(located[i]), At(located[i + 1]));
    }
  }

  /** The stations as the services pass them on for the total: every coordinate filled in. */
  function Filled(s: seq<Station>): (r: seq<Station>)
    ensures |r| == |s|
  {
    seq(|s|, i requires 0 <= i < |s| => s[i].(lat := Some(s[i].lat.Or(0.0)), lon := Some(s[i].lon.Or(0.0))))
  }

  lemma {:induction false} SameWay(d: Metric, s: seq<Station>, t: seq<Station>, n: nat)
    requires n <= |s| == |t| && forall i :: 0 <= i < |s| ==> At(s[i]) == At(t[i])
    ensures LengthTo(d, s, n) == LengthTo(d, t, n)
  {
    if n >= 2 {
      SameWay(d, s, t, n - 1);
    }
  }

  /** With coordinates filled in, the total is the way through all stations. */
  lemma FilledTotal(d: Metric, s: seq<Station>)
    ensures PathLength(d, Filter(Filled(s), Located)) == PathLength(d, s)
  {
    FilterKeepsAll(Filled(s), Located);
    SameWay(d, Filled(s), s, |s|);
  }

  lemma {:induction false} LengthNonNegative(d: Metric, s: seq<Station>, n: nat)
    requires PseudoMetric(d) && n <= |s|
    ensures LengthTo(d, s, n) >= 0.0
  {
    if n >= 2 {
      LengthNonNegative(d, s, n - 1);
    }
  }

  /** A way of length zero stays in one place. */
  lemma {:induction false} ZeroLengthFlat(d: Metric, s: seq<Station>, n: nat)
    requires PseudoMetric(d) && n <= |s| && LengthTo(d, s, n) == 0.0
    ensures forall i, j :: 0 <= i < n && 0 <= j < n ==> d(At(s[i]), At(s[j])) == 0.0
  {
    if n >= 2 {
      LengthNonNegative(d, s, n - 1);
      ZeroLengthFlat(d, s, n - 1);
      var a, b := At(s[n - 2]), At(s[n - 1]);
      assert d(a, b) == 0.0;
      forall i | 0 <= i < n - 1 ensures d(At(s[i]), b) == 0.0 && d(b, At(s[i])) == 0.0 {
        assert d(At(s[i]), b) <= d(At(s[i]), a) + d(a, b);
      }
    }
  }

  lemma {:induction false} FlatZeroLength(d: Metric, s: seq<Station>, n: nat)
    requires n <= |s| && forall i, j :: 0 <= i < n && 0 <= j < n ==> d(At(s[i]), At(s[j])) == 0.0
    ensures LengthTo(d, s, n) == 0.0
  {
    if n >= 2 {
      FlatZeroLength(d, s, n - 1);
    }
  }

  /** If a way has length zero, so has every way through places on it, in any order. */
  lemma ZeroSpreads(d: Metric, s: seq<Station>, t: seq<Station>)
    requires PseudoMetric(d) && PathLength(d, s) == 0.0
    requires forall y :: y in t ==> exists x :: x in s && At(x) == At(y)
    ensures PathLength(d, t) == 0.0
  {
    ZeroLengthFlat(d, s, |s|);
    forall i, j | 0 <= i < |t| && 0 <= j < |t| ensures d(At(t[i]), At(t[j])) == 0.0 {
      assert t[i] in t && t[j] in t;
      var x :| x in s && At(x) == At(t[i]);
      var y :| y in s && At(y) == At(t[j]);
      var k :| 0 <= k < |s| && s[k] == x;
      var l :| 0 <= l < |s| && s[l] == y;
    }
    FlatZeroLength(d, t, |t|);
  }
}
