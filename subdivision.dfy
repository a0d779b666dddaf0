/**
 * Radial subdivision (`Circle.subdivide`) as the ordered list of callback
 * calls it makes.  A circle of radius `r` is split into `num` ring circles of
 * radius `subr = r * k / (1 + k)`, where `k` stands for `sin(PI / num)`,
 * placed on the circle of radius `r - subr`, plus one centre circle of
 * radius `r - 2 * subr`.  The callbacks are recorded as `Visit` values; the
 * value each callback returns is threaded into a later call, which is
 * recorded as the trace position of the call whose result is passed on.
 */
module Subdivision {
  import opened Wrappers
  import opened Shapes

  /** A unit direction `(cos(t), sin(t))`; trigonometry is left to the caller. */
  datatype Point = Point(x: real, y: real)

  /**
   * One callback call.  `Recurse` is `recfn(circle, parent, last, index, count)`;
   * `Gap` is `gapfn(outer, first, second, parent, last, indexA, indexB, count)`.
   * The parent argument is always the subdivided circle and is left out.
   * `prev` is the position in the trace of the call whose result is passed
   * as `last`, or `None` where the source passes `null`.
   */
  datatype Visit =
    | Recurse(circle: Shape, prev: Option<int>, index: int, count: int)
    | Gap(outer: Shape, first: Shape, second: Shape, prev: Option<int>, indexA: int, indexB: int, count: int)

  /** `subr`, the radius of each ring circle, for `k == sin(PI / num)`. */
  function RingRadius(r: real, k: real): (subr: real)
    requires 0.0 <= k
    ensures subr * (1.0 + k) == r * k
    ensures r >= 0.0 ==> subr >= 0.0
  {
    (r * k) / (1.0 + k)
  }

  /** `centc`: concentric with the parent, radius `r - 2 * subr`, the parent's orientation. */
  function CentreOf(c: Shape, k: real): (o: Shape)
    requires 0.0 <= k
    ensures o.Normal() && o.x == c.x && o.y == c.y && o.a == c.a && o.i == NoIndex
  {
    Make(c.x, c.y, (c.r - RingRadius(c.r, k) * 2.0) * c.s, c.a, NoIndex)
  }

  /**
   * Ring circle `j` of `num`: centred at distance `r - subr` in direction
   * `dir(j)` (the angle `2 * PI * j / num`), with rotation annotation
   * `-a + 360 * j / num` degrees and subdivision index `[j, num]`.
   */
  function ChildOf(c: Shape, num: int, k: real, dir: int -> Point, j: int): (o: Shape)
    requires 0.0 <= k && 0 <= j < num
    ensures o.Normal() && o.i == At(j, num) && Point(o.x, o.y) == ChildCentre(c, k, dir, j)
    ensures c.r >= 0.0 ==> o.r == RingRadius(c.r, k) && o.s == 1.0
  {
    var centre := ChildCentre(c, k, dir, j);
    Make(centre.x, centre.y, RingRadius(c.r, k), ChildRotation(c, num, j), At(j, num))
  }

  /** The centre of ring circle `j`: `r - subr` away from the parent's centre in direction `dir(j)`. */
  function ChildCentre(c: Shape, k: real, dir: int -> Point, j: int): Point
    requires 0.0 <= k
  {
    var subr := RingRadius(c.r, k);
    Point(c.x + dir(j).x * (c.r - subr), c.y + dir(j).y * (c.r - subr))
  }

  /** The rotation annotation of ring circle `j` of `num`: `-a + 360 * j / num` degrees. */
  function ChildRotation(c: Shape, num: int, j: int): real
    requires num > 0
  {
    -c.a + 360.0 * (j as real) / (num as real)
  }

  /** The values of ring circles `0..n-1`, in order. */
  function RingChildren(c: Shape, num: int, k: real, dir: int -> Point, n: nat): (s: seq<Shape>)
    requires 0.0 <= k && (n == 0 || n <= num)
    ensures |s| == n && forall j | 0 <= j < n :: s[j] == ChildOf(c, num, k, dir, j)
  {
    if n == 0 then [] else RingChildren(c, num, k, dir, n - 1) + [ChildOf(c, num, k, dir, n - 1)]
  }

  /** The ring neighbour the gap loop pairs with child `j`: `j + 1`, or 0 after the last. */
  function Next(j: int, num: int): int {
    if j + 1 >= num then 0 else j + 1
  }

  /** The second index passed to `gapfn`: `subi+1 % num`, which is `subi + (1 % num)`. */
  function SecondIndex(j: int, num: int): int
    requires num >= 1
  {
    j + 1 % num
  }

  /** The inner gap of pair `j` of `ring`: between the parent's boundary and ring circles `j` and `Next(j)`. */
  function BoundaryGap(c: Shape, ring: seq<Shape>, j: int, prev: Option<int>): Visit
    requires 0 <= j < |ring|
  {
    Gap(c.Inner(), ring[j].Outer(), ring[Next(j, |ring|)].Outer(), prev, j, SecondIndex(j, |ring|), |ring|)
  }

  /** The outer gap of pair `j` of `ring`: between the centre circle and ring circles `j` and `Next(j)`. */
  function CentreGap(centre: Shape, ring: seq<Shape>, j: int, prev: Option<int>): Visit
    requires 0 <= j < |ring|
  {
    Gap(centre.Outer(), ring[j].Outer(), ring[Next(j, |ring|)].Outer(), prev, j, SecondIndex(j, |ring|), |ring|)
  }

  /** The ring circles from `j` on that pass the filter, in index order. */
  function AcceptedRing(ring: seq<Shape>, accept: Shape -> bool, j: nat): seq<int>
    decreases |ring| - j
  {
    if j >= |ring| then []
    else if accept(ring[j].Inner()) then [j] + AcceptedRing(ring, accept, j + 1)
    else AcceptedRing(ring, accept, j + 1)
  }

  /**
   * Every callback `subdivide(num, rotate, gapfn, recfn, filfn)` makes, in
   * order, when `accept` is the filter (the constant-true filter stands for
   * an absent one): nothing when the circle itself is rejected; otherwise
   * the calls `Calls` makes for its centre circle and its `num` ring circles.
   */
  function SubdivideTrace(c: Shape, num: int, k: real, dir: int -> Point, accept: Shape -> bool): (t: seq<Visit>)
    requires 0.0 <= k
    ensures !accept(c) ==> t == []
    ensures |t| <= 3 * (if num < 0 then 0 else num) + 1
  {
    if !accept(c) then []
    else Calls(c, CentreOf(c, k), RingChildren(c, num, k, dir, if num < 0 then 0 else num), accept)
  }

  /**
   * The callbacks for an accepted circle `c` with centre circle `centre` and
   * ring circles `ring`: the centre's `recfn` when the centre passes the
   * filter, then one `recfn` per accepted ring circle, then per adjacent
   * accepted pair an inner gap against the parent and, when the centre
   * passed, an outer gap against the centre.
   */
  function Calls(c: Shape, centre: Shape, ring: seq<Shape>, accept: Shape -> bool): (t: seq<Visit>)
    ensures |t| <= 3 * |ring| + 1
    ensures forall n, m | 0 <= n < m < |t| :: t[m].Recurse? ==> t[n].Recurse?
  {
    var centreOk := accept(centre.Inner());
    var head := if centreOk then [Recurse(centre.Inner(), None, 0, 0)] else [];
    var recs := head + RecurseVisits(ring, accept, 0, None, |head|);
    var gaps := GapVisits(c, centre, ring, accept, centreOk, 0, None, None, |recs|);
    assert forall n | 0 <= n < |recs| :: recs[n].Recurse?;
    assert forall m | |recs| <= m < |recs + gaps| :: (recs + gaps)[m] == gaps[m - |recs|];
    recs + gaps
  }

  /**
   * The `recfn` calls for ring circles `j..` of `ring`; `prev` is the
   * position of the last call whose result is threaded on and `pos` is
   * where the next call lands in the trace.
   */
  function RecurseVisits(ring: seq<Shape>, accept: Shape -> bool, j: nat, prev: Option<int>, pos: nat): (v: seq<Visit>)
    ensures |v| + j <= |ring| || v == []
    ensures forall n | 0 <= n < |v| :: v[n].Recurse?
    decreases |ring| - j
  {
    if j >= |ring| then []
    else
      var child := ring[j].Inner();
      if accept(child) then
        [Recurse(child, prev, j, |ring|)] + RecurseVisits(ring, accept, j + 1, Some(pos), pos + 1)
      else
        RecurseVisits(ring, accept, j + 1, prev, pos)
  }

  /**
   * The `gapfn` calls for the pairs starting at ring circles `j..`; the
   * inner and outer gap results are threaded separately.
   */
  function GapVisits(c: Shape, centre: Shape, ring: seq<Shape>, accept: Shape -> bool, centreOk: bool,
                     j: nat, prevInner: Option<int>, prevOuter: Option<int>, pos: nat): (v: seq<Visit>)
    ensures |v| + 2 * j <= 2 * |ring| || v == []
    ensures forall n | 0 <= n < |v| :: v[n].Gap?
    decreases |ring| - j
  {
    if j >= |ring| then []
    else if accept(ring[j].Inner()) && accept(ring[Next(j, |ring|)].Inner()) then
      if centreOk then
        [BoundaryGap(c, ring, j, prevInner), CentreGap(centre, ring, j, prevOuter)]
        + GapVisits(c, centre, ring, accept, centreOk, j + 1, Some(pos), Some(pos + 1), pos + 2)
      else
        [BoundaryGap(c, ring, j, prevInner)]
        + GapVisits(c, centre, ring, accept, centreOk, j + 1, Some(pos), prevOuter, pos + 1)
    else
      GapVisits(c, centre, ring, accept, centreOk, j + 1, prevInner, prevOuter, pos)
  }

  // ---------------------------------------------------------------------
  // Closed-form radii
  // ---------------------------------------------------------------------

  /**
   * For `0 <= k <= 1` the centre radius `r - 2 * subr` is not negative, the
   * centre touches every ring circle (`centre + subr == r - subr`, the
   * distance of the ring centres), every ring circle touches the parent
   * from inside (`(r - subr) + subr == r`), and neighbours touch: the chord
   * `2 * (r - subr) * sin(PI / num)` between adjacent ring centres equals
   * `2 * subr`.
   */
  lemma RingRadii(r: real, k: real)
    requires r >= 0.0 && 0.0 <= k <= 1.0
    ensures var subr := RingRadius(r, k);
            0.0 <= subr && r - 2.0 * subr >= 0.0
            && (r - 2.0 * subr) + subr == r - subr
            && (r - subr) * k == subr
  {
    var subr := RingRadius(r, k);
    assert r - 2.0 * subr == (r * (1.0 - k)) / (1.0 + k);
    assert r * (1.0 - k) >= 0.0;
    NonNegativeQuotient(r * (1.0 - k), 1.0 + k);
  }

  lemma NonNegativeQuotient(p: real, q: real)
    requires p >= 0.0 && q > 0.0
    ensures p / q >= 0.0
  {
  }

  /** The centre circle keeps the parent's orientation and has radius `r - 2 * subr`. */
  lemma CentreShape(c: Shape, k: real)
    requires c.Normal() && 0.0 <= k <= 1.0
    ensures CentreOf(c, k).r == c.r - 2.0 * RingRadius(c.r, k)
    ensures CentreOf(c, k).r > 0.0 ==> CentreOf(c, k).s == c.s
    ensures CentreOf(c, k).x == c.x && CentreOf(c, k).y == c.y
  {
    RingRadii(c.r, k);
  }

  // ---------------------------------------------------------------------
  // Shape of the trace
  // ---------------------------------------------------------------------

  /** With every ring circle accepted, the `recfn` calls cover `j..` in order, each threading the previous one. */
  lemma {:induction false} RecurseVisitsAll(ring: seq<Shape>, accept: Shape -> bool, j: nat, prev: Option<int>, pos: nat)
    requires j <= |ring|
    requires forall m | j <= m < |ring| :: accept(ring[m].Inner())
    ensures var v := RecurseVisits(ring, accept, j, prev, pos);
            |v| == |ring| - j
            && forall m | 0 <= m < |ring| - j ::
                 v[m] == Recurse(ring[j + m].Inner(), if m == 0 then prev else Some(pos + m - 1), j + m, |ring|)
    decreases |ring| - j
  {
    if j < |ring| {
      RecurseVisitsAll(ring, accept, j + 1, Some(pos), pos + 1);
      var v := RecurseVisits(ring, accept, j, prev, pos);
      var rest := RecurseVisits(ring, accept, j + 1, Some(pos), pos + 1);
      assert v == [Recurse(ring[j].Inner(), prev, j, |ring|)] + rest;
      forall m | 0 < m < |ring| - j
        ensures v[m] == Recurse(ring[j + m].Inner(), Some(pos + m - 1), j + m, |ring|)
      {
        assert v[m] == rest[m - 1];
      }
    }
  }

  /** With every circle accepted, each ring circle starts a pair, so there are two gaps per ring circle. */
  lemma {:induction false} GapVisitsAllLength(c: Shape, centre: Shape, ring: seq<Shape>, accept: Shape -> bool,
                                              j: nat, prevInner: Option<int>, prevOuter: Option<int>, pos: nat)
    requires j <= |ring|
    requires forall m | 0 <= m < |ring| :: accept(ring[m].Inner())
    ensures |GapVisits(c, centre, ring, accept, true, j, prevInner, prevOuter, pos)| == 2 * (|ring| - j)
    decreases |ring| - j
  {
    if j < |ring| {
      assert 0 <= Next(j, |ring|) < |ring|;
      GapVisitsAllLength(c, centre, ring, accept, j + 1, Some(pos), Some(pos + 1), pos + 2);
    }
  }

  /**
   * With every circle accepted, ring pair `j + m` gets its inner gap at
   * offset `2m` and its outer gap right after it, each passed the result of
   * the previous gap of its kind.
   */
  lemma {:induction false} GapVisitsAllPair(c: Shape, centre: Shape, ring: seq<Shape>, accept: Shape -> bool,
                                            j: nat, prevInner: Option<int>, prevOuter: Option<int>, pos: nat, m: nat)
    requires j + m < |ring|
    requires forall m | 0 <= m < |ring| :: accept(ring[m].Inner())
    ensures var v := GapVisits(c, centre, ring, accept, true, j, prevInner, prevOuter, pos);
            2 * m + 1 < |v|
            && v[2 * m] == BoundaryGap(c, ring, j + m, if m == 0 then prevInner else Some(pos + 2 * m - 2))
            && v[2 * m + 1] == CentreGap(centre, ring, j + m, if m == 0 then prevOuter else Some(pos + 2 * m - 1))
    decreases m
  {
    assert 0 <= Next(j, |ring|) < |ring|;
    GapVisitsAllLength(c, centre, ring, accept, j, prevInner, prevOuter, pos);
    var v := GapVisits(c, centre, ring, accept, true, j, prevInner, prevOuter, pos);
    var rest := GapVisits(c, centre, ring, accept, true, j + 1, Some(pos), Some(pos + 1), pos + 2);
    assert v == [BoundaryGap(c, ring, j, prevInner), CentreGap(centre, ring, j, prevOuter)] + rest;
    if m > 0 {
      GapVisitsAllPair(c, centre, ring, accept, j + 1, Some(pos), Some(pos + 1), pos + 2, m - 1);
      assert v[2 * m] == rest[2 * (m - 1)];
      assert v[2 * m + 1] == rest[2 * (m - 1) + 1];
    }
  }

  /**
   * Without a filter (every circle accepted): `recfn` fires first for the
   * centre with indices 0, 0 and a null last result, then once per ring
   * circle, ring circle `m` at position `1 + m` passed the previous ring
   * call's result; then `gapfn` fires twice per adjacent pair, pair `m`'s
   * inner gap at `1 + n + 2m` before its outer gap, each passed the previous
   * gap of its kind; `3 * n + 1` calls in all for `n` ring circles.
   */
  lemma UnfilteredCalls(c: Shape, centre: Shape, ring: seq<Shape>, accept: Shape -> bool, m: int)
    requires 0 <= m < |ring|
    requires accept(centre.Inner()) && forall j | 0 <= j < |ring| :: accept(ring[j].Inner())
    ensures var t, n := Calls(c, centre, ring, accept), |ring|;
            |t| == 3 * n + 1
            && t[0] == Recurse(centre.Inner(), None, 0, 0)
            && t[1 + m] == Recurse(ring[m].Inner(), if m == 0 then None else Some(m), m, n)
            && t[1 + n + 2 * m] == BoundaryGap(c, ring, m, if m == 0 then None else Some(n + 2 * m - 1))
            && t[2 + n + 2 * m] == CentreGap(centre, ring, m, if m == 0 then None else Some(n + 2 * m))
  {
    var n := |ring|;
    CallsCentreAccepted(c, centre, ring, accept);
    var recs := RecurseVisits(ring, accept, 0, None, 1);
    var gaps := GapVisits(c, centre, ring, accept, true, 0, None, None, 1 + n);
    RecurseVisitsAllAt(ring, accept, m);
    GapVisitsAllAt(c, centre, ring, accept, m);
    var t := Calls(c, centre, ring, accept);
    assert t == [Recurse(centre.Inner(), None, 0, 0)] + recs + gaps;
    assert t[1 + m] == recs[m];
    assert t[1 + n + 2 * m] == gaps[2 * m] && t[2 + n + 2 * m] == gaps[2 * m + 1];
  }

  /** With every ring circle accepted, ring circle `m`'s `recfn` call is the `m`-th, threading call `m - 1`'s result. */
  lemma RecurseVisitsAllAt(ring: seq<Shape>, accept: Shape -> bool, m: int)
    requires 0 <= m < |ring|
    requires forall j | 0 <= j < |ring| :: accept(ring[j].Inner())
    ensures var v := RecurseVisits(ring, accept, 0, None, 1);
            |v| == |ring| && v[m] == Recurse(ring[m].Inner(), if m == 0 then None else Some(m), m, |ring|)
  {
    RecurseVisitsAll(ring, accept, 0, None, 1);
  }

  /** With every circle accepted, pair `m`'s two gaps sit at `2m` and `2m + 1`. */
  lemma GapVisitsAllAt(c: Shape, centre: Shape, ring: seq<Shape>, accept: Shape -> bool, m: int)
    requires 0 <= m < |ring|
    requires forall j | 0 <= j < |ring| :: accept(ring[j].Inner())
    ensures var v, n := GapVisits(c, centre, ring, accept, true, 0, None, None, 1 + |ring|), |ring|;
            |v| == 2 * n
            && v[2 * m] == BoundaryGap(c, ring, m, if m == 0 then None else Some(n + 2 * m - 1))
            && v[2 * m + 1] == CentreGap(centre, ring, m, if m == 0 then None else Some(n + 2 * m))
  {
    GapVisitsAllLength(c, centre, ring, accept, 0, None, None, 1 + |ring|);
    GapVisitsAllPair(c, centre, ring, accept, 0, None, None, 1 + |ring|, m);
    var prevInner: Option<int> := if m == 0 then None else Some(1 + |ring| + 2 * m - 2);
    var prevOuter: Option<int> := if m == 0 then None else Some(1 + |ring| + 2 * m - 1);
    assert prevInner == if m == 0 then None else Some(|ring| + 2 * m - 1);
    assert prevOuter == if m == 0 then None else Some(|ring| + 2 * m);
  }

  /** `Calls` when the centre passes the filter: its `recfn` first, then the ring's, then the gaps. */
  lemma CallsCentreAccepted(c: Shape, centre: Shape, ring: seq<Shape>, accept: Shape -> bool)
    requires accept(centre.Inner())
    ensures var recs := RecurseVisits(ring, accept, 0, None, 1);
            Calls(c, centre, ring, accept)
            == [Recurse(centre.Inner(), None, 0, 0)] + recs + GapVisits(c, centre, ring, accept, true, 0, None, None, 1 + |recs|)
  {
  }

  /**
   * Without a filter and with `num >= 1`, `subdivide` makes `3 * num + 1`
   * calls: the centre's `recfn` first, ring circle `m`'s `recfn` at
   * position `1 + m`, and pair `m`'s inner gap (between ring circles `m` and
   * `Next(m)` against the parent) at `1 + num + 2m` right before its outer
   * gap against the centre circle.
   */
  lemma UnfilteredTrace(c: Shape, num: int, k: real, dir: int -> Point, accept: Shape -> bool, m: int)
    requires 0.0 <= k && 0 <= m < num
    requires forall s: Shape :: accept(s)
    ensures var t, a, b := SubdivideTrace(c, num, k, dir, accept), ChildOf(c, num, k, dir, m), ChildOf(c, num, k, dir, Next(m, num));
            |t| == 3 * num + 1
            && t[0] == Recurse(CentreOf(c, k).Inner(), None, 0, 0)
            && t[1 + m] == Recurse(a.Inner(), if m == 0 then None else Some(m), m, num)
            && t[1 + num + 2 * m] == Gap(c.Inner(), a.Outer(), b.Outer(), if m == 0 then None else Some(num + 2 * m - 1), m, SecondIndex(m, num), num)
            && t[2 + num + 2 * m] == Gap(CentreOf(c, k).Outer(), a.Outer(), b.Outer(), if m == 0 then None else Some(num + 2 * m), m, SecondIndex(m, num), num)
  {
    var ring := RingChildren(c, num, k, dir, num);
    assert 0 <= Next(m, num) < num;
    assert ring[m] == ChildOf(c, num, k, dir, m) && ring[Next(m, num)] == ChildOf(c, num, k, dir, Next(m, num));
    UnfilteredCalls(c, CentreOf(c, k), ring, accept, m);
  }

  /**
   * Under any filter, a gap is visited only for a pair whose two ring
   * circles both passed the filter; its first index is the pair's first
   * circle, its second index is `j + 1 % n`; and when the centre was
   * rejected only inner gaps (against the parent) are visited.
   */
  lemma {:induction false} GapVisitsFiltered(c: Shape, centre: Shape, ring: seq<Shape>, accept: Shape -> bool,
                                             centreOk: bool, j: nat, prevInner: Option<int>, prevOuter: Option<int>, pos: nat)
    ensures forall v | v in GapVisits(c, centre, ring, accept, centreOk, j, prevInner, prevOuter, pos) ::
              v.Gap? && j <= v.indexA < |ring| && v.indexB == SecondIndex(v.indexA, |ring|)
              && v.first == ring[v.indexA].Outer() && v.second == ring[Next(v.indexA, |ring|)].Outer()
              && accept(ring[v.indexA].Inner()) && accept(ring[Next(v.indexA, |ring|)].Inner())
              && (v.outer == c.Inner() || (centreOk && v.outer == centre.Outer()))
    decreases |ring| - j
  {
    if j < |ring| {
      GapVisitsFiltered(c, centre, ring, accept, centreOk, j + 1, Some(pos), Some(pos + 1), pos + 2);
      GapVisitsFiltered(c, centre, ring, accept, centreOk, j + 1, Some(pos), prevOuter, pos + 1);
      GapVisitsFiltered(c, centre, ring, accept, centreOk, j + 1, prevInner, prevOuter, pos);
    }
  }

  /**
   * The ring `recfn` calls `v` are exactly the ring circles listed in `idx`,
   * in that order, each passed the result of the call before it, the first
   * passed `prev`.
   */
  predicate CallsFor(ring: seq<Shape>, v: seq<Visit>, idx: seq<int>, j: nat, prev: Option<int>, pos: nat) {
    |v| == |idx|
    && forall n | 0 <= n < |v| ::
         j <= idx[n] < |ring|
         && v[n] == Recurse(ring[idx[n]].Inner(), if n == 0 then prev else Some(pos + n - 1), idx[n], |ring|)
  }

  /**
   * Under any filter, the ring `recfn` calls are exactly the accepted ring
   * circles in index order, each passed the result of the previous call.
   */
  lemma {:induction false} RecurseVisitsFiltered(ring: seq<Shape>, accept: Shape -> bool, j: nat, prev: Option<int>, pos: nat)
    ensures CallsFor(ring, RecurseVisits(ring, accept, j, prev, pos), AcceptedRing(ring, accept, j), j, prev, pos)
    decreases |ring| - j
  {
    if j < |ring| {
      if accept(ring[j].Inner()) {
        RecurseVisitsFiltered(ring, accept, j + 1, Some(pos), pos + 1);
        CallsForCons(ring, RecurseVisits(ring, accept, j + 1, Some(pos), pos + 1), AcceptedRing(ring, accept, j + 1), j, prev, pos);
      } else {
        RecurseVisitsFiltered(ring, accept, j + 1, prev, pos);
      }
    }
  }

  /** Putting ring circle `j`'s call in front of the calls for a later part of the ring. */
  lemma CallsForCons(ring: seq<Shape>, rest: seq<Visit>, rdx: seq<int>, j: nat, prev: Option<int>, pos: nat)
    requires j < |ring| && CallsFor(ring, rest, rdx, j + 1, Some(pos), pos + 1)
    ensures CallsFor(ring, [Recurse(ring[j].Inner(), prev, j, |ring|)] + rest, [j] + rdx, j, prev, pos)
  {
    var v, idx := [Recurse(ring[j].Inner(), prev, j, |ring|)] + rest, [j] + rdx;
    forall n | 0 < n < |v|
      ensures j <= idx[n] < |ring| && v[n] == Recurse(ring[idx[n]].Inner(), Some(pos + n - 1), idx[n], |ring|)
    {
      assert v[n] == rest[n - 1] && idx[n] == rdx[n - 1];
    }
  }

  /** `AcceptedRing` lists exactly the ring circles from `j` on that pass the filter. */
  lemma {:induction false} AcceptedRingMembers(ring: seq<Shape>, accept: Shape -> bool, j: nat, i: int)
    ensures i in AcceptedRing(ring, accept, j) <==> j <= i < |ring| && accept(ring[i].Inner())
    decreases |ring| - j
  {
    if j < |ring| {
      AcceptedRingMembers(ring, accept, j + 1, i);
    }
  }

  predicate StrictlyIncreasing(s: seq<int>) {
    forall n, m | 0 <= n < m < |s| :: s[n] < s[m]
  }

  /** `AcceptedRing` is strictly increasing, so each accepted ring circle gets exactly one `recfn` call. */
  lemma {:induction false} AcceptedRingIncreasing(ring: seq<Shape>, accept: Shape -> bool, j: nat)
    ensures StrictlyIncreasing(AcceptedRing(ring, accept, j))
    decreases |ring| - j
  {
    if j < |ring| {
      AcceptedRingIncreasing(ring, accept, j + 1);
      var rest := AcceptedRing(ring, accept, j + 1);
      forall n | 0 <= n < |rest|
        ensures j < rest[n]
      {
        AcceptedRingMembers(ring, accept, j + 1, rest[n]);
      }
      var idx := AcceptedRing(ring, accept, j);
      if accept(ring[j].Inner()) {
        assert idx == [j] + rest;
        forall n, m | 0 <= n < m < |idx|
          ensures idx[n] < idx[m]
        {
          assert idx[m] == rest[m - 1];
          if n > 0 {
            assert idx[n] == rest[n - 1] && rest[n - 1] < rest[m - 1];
          }
        }
      } else {
        assert idx == rest;
      }
    }
  }

  /** The ring circles from `j` on that start a pair (with `Next`) whose two circles both pass the filter. */
  function AcceptedPairs(ring: seq<Shape>, accept: Shape -> bool, j: nat): seq<int>
    decreases |ring| - j
  {
    if j >= |ring| then []
    else if accept(ring[j].Inner()) && accept(ring[Next(j, |ring|)].Inner()) then [j] + AcceptedPairs(ring, accept, j + 1)
    else AcceptedPairs(ring, accept, j + 1)
  }

  /** `AcceptedPairs` lists exactly the ring circles from `j` on whose pair passes the filter. */
  lemma {:induction false} AcceptedPairsMembers(ring: seq<Shape>, accept: Shape -> bool, j: nat, i: int)
    ensures i in AcceptedPairs(ring, accept, j)
            <==> j <= i < |ring| && accept(ring[i].Inner()) && accept(ring[Next(i, |ring|)].Inner())
    decreases |ring| - j
  {
    if j < |ring| {
      AcceptedPairsMembers(ring, accept, j + 1, i);
    }
  }

  /** `AcceptedPairs` is strictly increasing, so the gaps follow ring order and no pair is visited twice. */
  lemma {:induction false} AcceptedPairsIncreasing(ring: seq<Shape>, accept: Shape -> bool, j: nat)
    ensures StrictlyIncreasing(AcceptedPairs(ring, accept, j))
    decreases |ring| - j
  {
    if j < |ring| {
      AcceptedPairsIncreasing(ring, accept, j + 1);
      var rest := AcceptedPairs(ring, accept, j + 1);
      forall n | 0 <= n < |rest|
        ensures j < rest[n]
      {
        AcceptedPairsMembers(ring, accept, j + 1, rest[n]);
      }
      var idx := AcceptedPairs(ring, accept, j);
      if idx != rest {
        assert idx == [j] + rest;
        forall n, m | 0 <= n < m < |idx|
          ensures idx[n] < idx[m]
        {
          assert idx[m] == rest[m - 1];
          if n > 0 {
            assert idx[n] == rest[n - 1] && rest[n - 1] < rest[m - 1];
          }
        }
      }
    }
  }

  /**
   * With the centre rejected, the gap calls `v` are exactly the inner gaps
   * of the pairs listed in `idx`, in that order, each passed the result of
   * the gap before it, the first passed `prev`.
   */
  predicate InnerGapsFor(c: Shape, ring: seq<Shape>, v: seq<Visit>, idx: seq<int>, prev: Option<int>, pos: nat) {
    |v| == |idx|
    && forall n | 0 <= n < |idx| ::
         0 <= idx[n] < |ring|
         && v[n] == BoundaryGap(c, ring, idx[n], if n == 0 then prev else Some(pos + n - 1))
  }

  /**
   * With the centre accepted, the gap calls `v` are, for each pair listed in
   * `idx` in that order, its inner gap and then its outer gap, each passed
   * the result of the previous gap of its kind.
   */
  predicate PairGapsFor(c: Shape, centre: Shape, ring: seq<Shape>, v: seq<Visit>, idx: seq<int>,
                        prevInner: Option<int>, prevOuter: Option<int>, pos: nat) {
    |v| == 2 * |idx|
    && forall n | 0 <= n < |idx| ::
         0 <= idx[n] < |ring|
         && v[2 * n] == BoundaryGap(c, ring, idx[n], if n == 0 then prevInner else Some(pos + 2 * n - 2))
         && v[2 * n + 1] == CentreGap(centre, ring, idx[n], if n == 0 then prevOuter else Some(pos + 2 * n - 1))
  }

  /** Under any filter, with the centre rejected, the gap calls are the inner gaps of the accepted pairs, in ring order. */
  lemma {:induction false} InnerGapsExact(c: Shape, centre: Shape, ring: seq<Shape>, accept: Shape -> bool,
                                          j: nat, prevInner: Option<int>, prevOuter: Option<int>, pos: nat)
    ensures InnerGapsFor(c, ring, GapVisits(c, centre, ring, accept, false, j, prevInner, prevOuter, pos),
                         AcceptedPairs(ring, accept, j), prevInner, pos)
    decreases |ring| - j
  {
    if j < |ring| {
      if accept(ring[j].Inner()) && accept(ring[Next(j, |ring|)].Inner()) {
        InnerGapsExact(c, centre, ring, accept, j + 1, Some(pos), prevOuter, pos + 1);
        InnerGapsCons(c, ring, GapVisits(c, centre, ring, accept, false, j + 1, Some(pos), prevOuter, pos + 1),
                      AcceptedPairs(ring, accept, j + 1), j, prevInner, pos);
      } else {
        InnerGapsExact(c, centre, ring, accept, j + 1, prevInner, prevOuter, pos);
      }
    }
  }

  /** Putting pair `j`'s inner gap in front of the inner gaps of later pairs. */
  lemma InnerGapsCons(c: Shape, ring: seq<Shape>, rest: seq<Visit>, rdx: seq<int>, j: nat, prev: Option<int>, pos: nat)
    requires j < |ring| && InnerGapsFor(c, ring, rest, rdx, Some(pos), pos + 1)
    ensures InnerGapsFor(c, ring, [BoundaryGap(c, ring, j, prev)] + rest, [j] + rdx, prev, pos)
  {
    var v, idx := [BoundaryGap(c, ring, j, prev)] + rest, [j] + rdx;
    forall n | 0 < n < |idx|
      ensures 0 <= idx[n] < |ring| && v[n] == BoundaryGap(c, ring, idx[n], Some(pos + n - 1))
    {
      assert v[n] == rest[n - 1] && idx[n] == rdx[n - 1];
    }
  }

  /** Under any filter, with the centre accepted, the gap calls are the inner and outer gaps of the accepted pairs, in ring order. */
  lemma {:induction false} PairGapsExact(c: Shape, centre: Shape, ring: seq<Shape>, accept: Shape -> bool,
                                         j: nat, prevInner: Option<int>, prevOuter: Option<int>, pos: nat)
    ensures PairGapsFor(c, centre, ring, GapVisits(c, centre, ring, accept, true, j, prevInner, prevOuter, pos),
                        AcceptedPairs(ring, accept, j), prevInner, prevOuter, pos)
    decreases |ring| - j
  {
    if j < |ring| {
      if accept(ring[j].Inner()) && accept(ring[Next(j, |ring|)].Inner()) {
        PairGapsExact(c, centre, ring, accept, j + 1, Some(pos), Some(pos + 1), pos + 2);
        PairGapsCons(c, centre, ring, GapVisits(c, centre, ring, accept, true, j + 1, Some(pos), Some(pos + 1), pos + 2),
                     AcceptedPairs(ring, accept, j + 1), j, prevInner, prevOuter, pos);
      } else {
        PairGapsExact(c, centre, ring, accept, j + 1, prevInner, prevOuter, pos);
      }
    }
  }

  /** Putting pair `j`'s two gaps in front of the gaps of later pairs. */
  lemma PairGapsCons(c: Shape, centre: Shape, ring: seq<Shape>, rest: seq<Visit>, rdx: seq<int>, j: nat,
                     prevInner: Option<int>, prevOuter: Option<int>, pos: nat)
    requires j < |ring| && PairGapsFor(c, centre, ring, rest, rdx, Some(pos), Some(pos + 1), pos + 2)
    ensures PairGapsFor(c, centre, ring, [BoundaryGap(c, ring, j, prevInner), CentreGap(centre, ring, j, prevOuter)] + rest,
                        [j] + rdx, prevInner, prevOuter, pos)
  {
    var v, idx := [BoundaryGap(c, ring, j, prevInner), CentreGap(centre, ring, j, prevOuter)] + rest, [j] + rdx;
    forall n | 0 < n < |idx|
      ensures 0 <= idx[n] < |ring|
              && v[2 * n] == BoundaryGap(c, ring, idx[n], Some(pos + 2 * n - 2))
              && v[2 * n + 1] == CentreGap(centre, ring, idx[n], Some(pos + 2 * n - 1))
    {
      assert idx[n] == rdx[n - 1];
      assert v[2 * n] == rest[2 * (n - 1)] && v[2 * n + 1] == rest[2 * (n - 1) + 1];
    }
  }

  /**
   * Under any filter, every pair whose two ring circles pass it gets its
   * `gapfn` calls: the returned position holds its inner gap against the
   * parent and, when the centre passed, the next one its outer gap against
   * the centre.
   */
  lemma AcceptedPairVisited(c: Shape, centre: Shape, ring: seq<Shape>, accept: Shape -> bool, centreOk: bool, pos: nat, j: int)
    returns (n: nat)
    requires 0 <= j < |ring| && accept(ring[j].Inner()) && accept(ring[Next(j, |ring|)].Inner())
    ensures var v := GapVisits(c, centre, ring, accept, centreOk, 0, None, None, pos);
            n < |v| && v[n] == BoundaryGap(c, ring, j, v[n].prev)
            && (centreOk ==> n + 1 < |v| && v[n + 1] == CentreGap(centre, ring, j, v[n + 1].prev))
  {
    var idx := AcceptedPairs(ring, accept, 0);
    AcceptedPairsMembers(ring, accept, 0, j);
    var m :| 0 <= m < |idx| && idx[m] == j;
    if centreOk {
      PairGapsExact(c, centre, ring, accept, 0, None, None, pos);
      n := 2 * m;
    } else {
      InnerGapsExact(c, centre, ring, accept, 0, None, None, pos);
      n := m;
    }
  }

  /**
   * The indices `gapfn` receives never wrap: for `num >= 2` the second index
   * is always the first plus one, so the last pair, whose second circle is
   * ring circle 0, reports index `num`; for `num == 1` it is 0.
   */
  lemma SecondIndexNeverWraps(j: int, num: int)
    requires 0 <= j < num
    ensures num >= 2 ==> SecondIndex(j, num) == j + 1
    ensures num >= 2 && j == num - 1 ==> Next(j, num) == 0 && SecondIndex(j, num) == num
    ensures num == 1 ==> SecondIndex(j, num) == 0 && Next(j, num) == 0
  {
  }
}
