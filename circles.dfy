/**
 * The paisl `Circle` object: its geometry (see `Shapes`), the parent/child
 * links `p`/`q` and the touching relation `t`, each a `WeakSet` in the
 * source and a set of circles here, and the methods that build or link
 * circles: the constructor, the orientation copies, `addtouching`,
 * `overlaps` and `subdivide`.
 */
module Circles {
  import opened Wrappers
  import opened Shapes
  import opened Subdivision

  /**
   * The constructor's parent argument `p`: absent, a circle, or a `WeakSet`
   * (what every copy passes on, `this.p`).  A `WeakSet` has no `q`
   * property, so the constructor links no parent for it.
   */
  datatype ParentArg = NoParent | ParentCircle(circle: Circle) | ParentWeakSet

  /**
   * The constructor's touching argument `t`: absent, an array of circles, or
   * a `WeakSet` (what every copy passes on, `this.t`).  `Array.from` of a
   * `WeakSet`, which is not iterable, is empty.
   */
  datatype TouchArg = NoTouching | TouchList(circles: seq<Circle>) | TouchWeakSet

  /** The objects whose child set the constructor may extend. */
  function ParentFrame(p: ParentArg): set<Circle> {
    if p.ParentCircle? then {p.circle} else {}
  }

  /** The circles the constructor links as touching. */
  function TouchFrame(t: TouchArg): set<Circle> {
    if t.TouchList? then set c | c in t.circles else {}
  }

  class Circle {
    const x: real
    const y: real
    const r: real
    const s: real
    const i: SubIndex
    /**
     * The rotation annotation.  `newgap` overwrites it once on the circle
     * `apollonius` returns, before that circle is shared; that step is
     * modelled on values in `Refresh`, so here it is fixed at construction.
     */
    const a: real
    /** `p`: the circle this one was subdivided from, if any; only the constructor sets it. */
    const parents: set<Circle>
    /** `q`: the circles built with this one as their parent. */
    var children: set<Circle>
    /** `t`: the circles this one touches. */
    var touching: set<Circle>

    /** The geometric value of the circle. */
    function Value(): Shape {
      Shape(x, y, r, s, a, i)
    }

    /**
     * `new Circle(x, y, r, a, g, p, i, t)`: the geometry normalised as by
     * `Make` (a null `a` becomes 0); a circle `p` gains this one as a child;
     * each circle of an array `t` and this one become mutually touching.
     */
    constructor (x0: real, y0: real, signedR: real, a0: Option<real>, p: ParentArg, i0: SubIndex, t: TouchArg)
      modifies ParentFrame(p)`children, TouchFrame(t)`touching
      ensures Value() == Make(x0, y0, signedR, if a0.Some? then a0.value else 0.0, i0)
      ensures parents == ParentFrame(p) && children == {} && touching == TouchFrame(t)
      ensures p.ParentCircle? ==> p.circle.children == old(p.circle.children) + {this}
      ensures forall c | c in TouchFrame(t) :: c.touching == old(c.touching) + {this}
    {
      var shape := Make(x0, y0, signedR, if a0.Some? then a0.value else 0.0, i0);
      x, y, r, s, a, i := shape.x, shape.y, shape.r, shape.s, shape.a, shape.i;
      parents := ParentFrame(p);
      children := {};
      touching := {};
      new;
      if p.ParentCircle? {
        p.circle.children := p.circle.children + {this};
      }
      if t.TouchList? {
        var list := t.circles;
        var n := 0;
        while n < |list|
          invariant 0 <= n <= |list|
          invariant touching == set m | 0 <= m < n :: list[m]
          invariant forall c | c in TouchFrame(t) ::
                      c.touching == old(c.touching) + (if c in list[..n] then {this} else {})
          invariant p.ParentCircle? ==> p.circle.children == old(p.circle.children) + {this}
          invariant Value() == shape && parents == ParentFrame(p) && children == {}
        {
          var ti := list[n];
          touching := touching + {ti};
          ti.touching := ti.touching + {this};
          assert list[..n + 1] == list[..n] + [ti];
          n := n + 1;
        }
        assert list[..n] == list;
      }
    }

    /** `inverse()`: a copy with the opposite orientation and no links. */
    method Inverse() returns (c: Circle)
      ensures fresh(c) && c.Value() == Value().Inverse()
      ensures c.parents == {} && c.children == {} && c.touching == {}
    {
      c := new Circle(x, y, r * s * -1.0, Some(a), ParentWeakSet, i, TouchWeakSet);
    }

    /** `inner()`: a copy oriented for internal tangency, with no links. */
    method Inner() returns (c: Circle)
      ensures fresh(c) && c.Value() == Value().Inner()
      ensures c.parents == {} && c.children == {} && c.touching == {}
    {
      c := new Circle(x, y, r * -1.0, Some(a), ParentWeakSet, i, TouchWeakSet);
    }

    /** `outer()`: a copy oriented for external tangency, with no links. */
    method Outer() returns (c: Circle)
      ensures fresh(c) && c.Value() == Value().Outer()
      ensures c.parents == {} && c.children == {} && c.touching == {}
    {
      c := new Circle(x, y, r, Some(a), ParentWeakSet, i, TouchWeakSet);
    }

    /** `shrinktopoint()`: a radius-zero copy at the same centre, with no links. */
    method ShrinkToPoint() returns (c: Circle)
      ensures fresh(c) && c.Value() == Value().ShrinkToPoint()
      ensures c.parents == {} && c.children == {} && c.touching == {}
    {
      c := new Circle(x, y, 0.0, Some(a), ParentWeakSet, i, TouchWeakSet);
    }

    /** `grow(factor)`: a scaled copy indexed `[i, j]`, with no links. */
    method Grow(factor: real) returns (c: Circle)
      ensures fresh(c) && c.Value() == Value().Grow(factor)
      ensures c.parents == {} && c.children == {} && c.touching == {}
    {
      c := new Circle(x, y, r * factor * s, Some(a), ParentWeakSet, Grown(i), TouchWeakSet);
    }

    /**
     * `addtouching(other)`: unless `other` is this circle or null, each of
     * the two is added to the other's touching set.  A touching relation
     * that is symmetric over a set of circles containing both stays so.
     */
    method AddTouching(other: Circle?, ghost world: set<Circle>)
      modifies this`touching, (if other == null then {} else {other})`touching
      ensures other == null || other == this ==> touching == old(touching)
      ensures other != null && other != this ==>
                touching == old(touching) + {other} && other.touching == old(other.touching) + {this}
      ensures old(Symmetric(world)) && this in world && (other != null ==> other in world) ==> Symmetric(world)
    {
      if other != this && other != null {
        touching := touching + {other};
        other.touching := other.touching + {this};
      }
    }

    /**
     * `overlaps(other)`: the centres are closer than the sum of the radii
     * (see `Shapes.OverlapsByDistance` for the square-root form).
     */
    function Overlaps(other: Circle): (b: bool) {
      Value().Overlaps(other.Value())
    }

    /**
     * `subdivide(num, rotate, gapfn, recfn, filfn)` with `k` standing for
     * `sin(PI / num)`, `dir(j)` for `(cos(2 * PI * j / num), sin(2 * PI * j / num))`
     * and `accept` for the filter (the constant-true filter standing for an
     * absent one).  The callbacks made are `trace`.  When the filter accepts
     * this circle, the centre circle and the ring circles are built as
     * children of this one; every ring circle touches this circle, the
     * centre and its ring neighbours, but the first and the last are not
     * linked to each other.
     */
    method Subdivide(num: int, k: real, dir: int -> Point, accept: Shape -> bool)
      returns (trace: seq<Visit>, centre: Circle?, ring: seq<Circle>)
      requires 0.0 <= k
      modifies this`touching, this`children
      ensures trace == SubdivideTrace(Value(), num, k, dir, accept)
      ensures !accept(Value()) ==> centre == null && ring == [] && touching == old(touching) && children == old(children)
      ensures accept(Value()) ==>
                centre != null && fresh(centre) && centre.Value() == CentreOf(Value(), k)
                && |ring| == (if num < 0 then 0 else num) && (forall j | 0 <= j < |ring| :: fresh(ring[j]))
                && RingBuilt(centre, ring, RingChildren(Value(), num, k, dir, |ring|), old(children) + {centre}, old(touching))
    {
      trace, centre, ring := [], null, [];
      var c := Value();
      if !accept(c) {
        return;
      }
      var subr := RingRadius(c.r, k);
      centre := new Circle(c.x, c.y, (c.r - subr * 2.0) * c.s, Some(c.a), ParentCircle(this), NoIndex, NoTouching);
      assert centre.Value() == CentreOf(c, k);
      var shapes;
      ring, shapes := BuildRing(centre, num, k, dir);
      trace := SubdivideCalls(c, num, k, dir, accept, shapes);
    }

    /** Ring circle `subi`, built as a child of this circle touching it and `centre`. */
    method NewRingCircle(centre: Circle, num: int, k: real, dir: int -> Point, subi: int) returns (cur: Circle)
      requires 0.0 <= k && 0 <= subi < num
      modifies this`touching, this`children, centre`touching
      ensures fresh(cur) && cur.Value() == ChildOf(Value(), num, k, dir, subi)
      ensures cur.parents == {this} && cur.children == {} && cur.touching == {this, centre}
      ensures children == old(children) + {cur} && touching == old(touching) + {cur}
      ensures centre != this ==> centre.touching == old(centre.touching) + {cur}
    {
      var c := Value();
      var at := ChildCentre(c, k, dir, subi);
      cur := new Circle(at.x, at.y, RingRadius(c.r, k), Some(ChildRotation(c, num, subi)), ParentCircle(this),
                        At(subi, num), TouchList([this, centre]));
    }

    /**
     * The ring-building loop of `subdivide`, after the centre circle is
     * built; `shapes` are the values of the ring circles.
     */
    method BuildRing(centre: Circle, num: int, k: real, dir: int -> Point) returns (ring: seq<Circle>, shapes: seq<Shape>)
      requires 0.0 <= k && centre != this
      requires centre.parents == {this} && centre.touching == {} && centre in children
      modifies this`touching, this`children, centre`touching
      ensures forall j | 0 <= j < |ring| :: fresh(ring[j])
      ensures |ring| == (if num < 0 then 0 else num) && shapes == RingChildren(Value(), num, k, dir, |ring|)
      ensures RingBuilt(centre, ring, shapes, old(children), old(touching))
    {
      ring, shapes := [], [];
      var c := Value();
      var subi := 0;
      while subi < num
        invariant 0 <= subi && (subi <= num || subi == 0) && |ring| == subi && Value() == c
        invariant forall j | 0 <= j < subi :: fresh(ring[j])
        invariant shapes == RingChildren(c, num, k, dir, subi)
        invariant RingBuilt(centre, ring, shapes, old(children), old(touching))
      {
        assert RingChildren(c, num, k, dir, subi + 1) == shapes + [ChildOf(c, num, k, dir, subi)];
        shapes := shapes + [ChildOf(c, num, k, dir, subi)];
        ghost var built := ring;
        ring := AppendRingCircle(centre, ring, shapes, num, k, dir, old(children), old(touching));
        forall j | 0 <= j <= subi
          ensures fresh(ring[j])
        {
          if j < subi {
            assert ring[j] == ring[..subi][j] == built[j];
          }
        }
        subi := subi + 1;
      }
    }

    /**
     * What the ring loop of `subdivide` has built after `|ring|` turns: ring
     * circle `j` has the value `shapes[j]` and this circle as its parent,
     * and touches this circle, the centre and its built neighbours; this
     * circle gained the ring circles as children and as touching; the
     * centre touches every ring circle.
     */
    ghost predicate RingBuilt(centre: Circle, ring: seq<Circle>, shapes: seq<Shape>,
                              oldChildren: set<Circle>, oldTouching: set<Circle>)
      reads this`children, this`touching, centre`touching, ring`touching
    {
      RingShaped(centre, ring, shapes) && RingLinked(centre, ring) && RingOwned(centre, ring, oldChildren, oldTouching)
    }

    /** The ring circles are distinct new children with the values `shapes` lists. */
    ghost predicate RingShaped(centre: Circle, ring: seq<Circle>, shapes: seq<Shape>) {
      centre != this && centre.parents == {this} && |ring| <= |shapes|
      && (forall j | 0 <= j < |ring| :: ring[j] != centre && ring[j] != this)
      && (forall j, l | 0 <= j < l < |ring| :: ring[j] != ring[l])
      && (forall j | 0 <= j < |ring| :: ring[j].Value() == shapes[j] && ring[j].parents == {this})
    }

    /** Each ring circle touches exactly this circle, the centre and its neighbours in `ring`. */
    ghost predicate RingLinked(centre: Circle, ring: seq<Circle>)
      reads ring`touching
    {
      forall j | 0 <= j < |ring| :: ring[j].touching == RingTouching(this, centre, ring, j)
    }

    /** This circle gained the ring circles as children and as touching, and so did the centre as touching. */
    ghost predicate RingOwned(centre: Circle, ring: seq<Circle>, oldChildren: set<Circle>, oldTouching: set<Circle>)
      reads this`children, this`touching, centre`touching
    {
      children == oldChildren + RingSet(ring) && touching == oldTouching + RingSet(ring) && centre.touching == RingSet(ring)
    }

    /** One turn of the ring loop: ring circle `|ring|` is built and linked to its predecessor. */
    method AppendRingCircle(centre: Circle, ring: seq<Circle>, shapes: seq<Shape>, num: int, k: real, dir: int -> Point,
                            ghost oldChildren: set<Circle>, ghost oldTouching: set<Circle>)
      returns (ring': seq<Circle>)
      requires 0.0 <= k && |ring| < num && |ring| < |shapes| && shapes[|ring|] == ChildOf(Value(), num, k, dir, |ring|)
      requires RingBuilt(centre, ring, shapes, oldChildren, oldTouching)
      modifies this`touching, this`children, centre`touching, (if |ring| == 0 then {} else {ring[|ring| - 1]})`touching
      ensures RingBuilt(centre, ring', shapes, oldChildren, oldTouching)
      ensures |ring'| == |ring| + 1 && ring'[..|ring|] == ring && fresh(ring'[|ring|])
    {
      var subi := |ring|;
      var cur := NewRingCircle(centre, num, k, dir, subi);
      ring' := ring + [cur];
      RingShapedAppend(centre, ring, shapes, cur);
      assert RingSet(ring') == RingSet(ring) + {cur};
      LinkLast(centre, ring');
    }

    /** A new ring circle with the next value keeps the ring well shaped. */
    lemma RingShapedAppend(centre: Circle, ring: seq<Circle>, shapes: seq<Shape>, cur: Circle)
      requires |ring| < |shapes| && RingShaped(centre, ring, shapes)
      requires cur != centre && cur != this && cur !in ring
      requires cur.Value() == shapes[|ring|] && cur.parents == {this}
      ensures RingShaped(centre, ring + [cur], shapes)
    {
      var ring' := ring + [cur];
      forall j | 0 <= j < |ring'|
        ensures ring'[j] != centre && ring'[j] != this
        ensures ring'[j].Value() == shapes[j] && ring'[j].parents == {this}
      {
        if j < |ring| {
          assert ring'[j] == ring[j];
        }
      }
      forall j, l | 0 <= j < l < |ring'|
        ensures ring'[j] != ring'[l]
      {
        if l < |ring| {
          assert ring'[j] == ring[j] && ring'[l] == ring[l];
        } else {
          assert ring'[j] == ring[j];
        }
      }
    }

    /** Links the newest ring circle, which so far touches only this circle and the centre, to its predecessor. */
    method LinkLast(centre: Circle, ring: seq<Circle>)
      requires |ring| >= 1 && ring[|ring| - 1].touching == {this, centre}
      requires RingLinked(centre, ring[..|ring| - 1])
      requires forall j | 0 <= j < |ring| :: ring[j] != this && ring[j] != centre
      requires forall j, l | 0 <= j < l < |ring| :: ring[j] != ring[l]
      modifies (if |ring| == 1 then {ring[0]} else {ring[|ring| - 1], ring[|ring| - 2]})`touching
      ensures RingLinked(centre, ring)
    {
      var n := |ring| - 1;
      var cur, before := ring[n], ring[..n];
      assert ring == before + [cur];
      if n > 0 {
        var last := ring[n - 1];
        cur.AddTouching(last, {});
        last.AddTouching(cur, {});
      }
      forall j | 0 <= j < n + 1
        ensures ring[j].touching == RingTouching(this, centre, ring, j)
      {
        RingTouchingExtend(this, centre, before, cur, j);
        if j < n {
          assert ring[j] == before[j];
        }
      }
    }
  }

  /**
   * The callbacks `subdivide` makes for an accepted circle `c` whose ring
   * circles have the values `shapes`: the centre's `recfn`, the ring's
   * `recfn` loop, then the gap loop.
   */
  method SubdivideCalls(c: Shape, num: int, k: real, dir: int -> Point, accept: Shape -> bool, shapes: seq<Shape>)
    returns (trace: seq<Visit>)
    requires 0.0 <= k && accept(c)
    requires shapes == RingChildren(c, num, k, dir, if num < 0 then 0 else num)
    ensures trace == SubdivideTrace(c, num, k, dir, accept)
  {
    var centre := CentreOf(c, k);
    var centreOk := accept(centre.Inner());
    var head := if centreOk then [Recurse(centre.Inner(), None, 0, 0)] else [];
    var recs, subfilt := RecurseCalls(num, accept, shapes, head);
    trace := GapCalls(c, centre, num, accept, centreOk, shapes, subfilt, recs);
  }

  /**
   * The `recfn` loop of `subdivide`: each of the `num` ring circles in turn
   * goes through the filter, and each accepted one gets a `recfn` call passed
   * the result of the previous accepted one; `subfilt` records the verdicts.
   */
  method RecurseCalls(num: int, accept: Shape -> bool, shapes: seq<Shape>, head: seq<Visit>)
    returns (trace: seq<Visit>, subfilt: seq<bool>)
    requires |shapes| == (if num < 0 then 0 else num)
    ensures trace == head + RecurseVisits(shapes, accept, 0, None, |head|)
    ensures |subfilt| == |shapes| && forall j | 0 <= j < |subfilt| :: subfilt[j] == accept(shapes[j].Inner())
  {
    trace, subfilt := head, [];
    var recresult: Option<int> := None;
    var subi := 0;
    while subi < num
      invariant 0 <= subi && (subi <= num || subi == 0) && |subfilt| == subi
      invariant forall j | 0 <= j < subi :: subfilt[j] == accept(shapes[j].Inner())
      invariant trace + RecurseVisits(shapes, accept, subi, recresult, |trace|)
             == head + RecurseVisits(shapes, accept, 0, None, |head|)
    {
      var child := shapes[subi].Inner();
      if accept(child) {
        trace := trace + [Recurse(child, recresult, subi, num)];
        recresult := Some(|trace| - 1);
        subfilt := subfilt + [true];
      } else {
        subfilt := subfilt + [false];
      }
      subi := subi + 1;
    }
  }

  /**
   * The gap loop of `subdivide`: for each ring circle and its successor
   * (the last paired with the first) that both passed the filter, the inner
   * gap against the parent `c` and, when the centre passed, the outer gap
   * against `centre`, each passed the result of the previous gap of its kind.
   */
  method GapCalls(c: Shape, centre: Shape, num: int, accept: Shape -> bool, centreOk: bool,
                  shapes: seq<Shape>, subfilt: seq<bool>, recs: seq<Visit>)
    returns (trace: seq<Visit>)
    requires |shapes| == |subfilt| == (if num < 0 then 0 else num)
    requires forall j | 0 <= j < |subfilt| :: subfilt[j] == accept(shapes[j].Inner())
    ensures trace == recs + GapVisits(c, centre, shapes, accept, centreOk, 0, None, None, |recs|)
  {
    trace := recs;
    var innergap: Option<int> := None;
    var outergap: Option<int> := None;
    var subi := 0;
    while subi < num
      invariant 0 <= subi && (subi <= num || subi == 0)
      invariant trace + GapVisits(c, centre, shapes, accept, centreOk, subi, innergap, outergap, |trace|)
             == recs + GapVisits(c, centre, shapes, accept, centreOk, 0, None, None, |recs|)
    {
      var next := if subi + 1 >= num then 0 else subi + 1;
      var subca, subcb := shapes[subi], shapes[next];
      if subfilt[subi] && subfilt[next] {
        trace := trace + [Gap(c.Inner(), subca.Outer(), subcb.Outer(), innergap, subi, subi + 1 % num, num)];
        innergap := Some(|trace| - 1);
        if centreOk {
          trace := trace + [Gap(centre.Outer(), subca.Outer(), subcb.Outer(), outergap, subi, subi + 1 % num, num)];
          outergap := Some(|trace| - 1);
        }
      }
      subi := subi + 1;
    }
  }

  /** The set of ring circles. */
  function RingSet(ring: seq<Circle>): set<Circle> {
    set c | c in ring
  }

  /** What ring circle `j` touches once `subdivide` has built the first `|ring|` of them. */
  function RingTouching(parent: Circle, centre: Circle, ring: seq<Circle>, j: int): set<Circle>
    requires 0 <= j < |ring|
  {
    {parent, centre} + (if j > 0 then {ring[j - 1]} else {}) + (if j + 1 < |ring| then {ring[j + 1]} else {})
  }

  /** Appending ring circle `cur` adds it to its predecessor's neighbours and gives it that predecessor. */
  lemma RingTouchingExtend(parent: Circle, centre: Circle, ring: seq<Circle>, cur: Circle, j: int)
    requires 0 <= j <= |ring|
    ensures j < |ring| ==> RingTouching(parent, centre, ring + [cur], j)
                           == RingTouching(parent, centre, ring, j) + (if j == |ring| - 1 then {cur} else {})
    ensures j == |ring| ==> RingTouching(parent, centre, ring + [cur], j)
                            == {parent, centre} + (if j > 0 then {ring[j - 1]} else {})
  {
  }

  /** The touching relation restricted to `world` is symmetric. */
  predicate Symmetric(world: set<Circle>)
    reads world
  {
    forall c, d | c in world && d in world && d in c.touching :: c in d.touching
  }
}
