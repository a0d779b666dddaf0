/**
 * The gap-filling recursion that `refresh` runs on its `WorkQueue`: the
 * nested functions `newgap` (fill the curvilinear triangle between three
 * mutually tangent circles) and `newrecurse` (subdivide one circle, or
 * hand three circles to `newgap`).  Each call is a `Job`; running a job
 * yields the jobs it schedules on the work queue, in order, and the circles
 * it schedules for drawing on the animation queue.
 *
 * Geometry the source computes with trigonometry is supplied by an `Env`:
 * `apollonius` (the circle tangent to three circles, or none), `angle`
 * (`atan2`), `symm` (`calcsymm`, the ring size), `sine` (`sin(PI / num)`)
 * and `ring` (the unit directions of a ring of `num` circles).
 */
module Refresh {
  import opened Wrappers
  import opened Shapes
  import opened Subdivision

  /** A ring size: `calcsymm` rounds into the symmetry slider range, which starts at 1. */
  type Count = n: int | n >= 1 witness 1

  /** A value of `sin(PI / num)` for `num >= 1`. */
  type Unit = x: real | 0.0 <= x <= 1.0

  datatype Env = Env(
    apollonius: (Shape, Shape, Shape) -> Option<Shape>,
    angle: (real, real, real, real) -> real,
    symm: (Shape, int, int) -> Count,
    sine: Count -> Unit,
    ring: Count -> int -> Point)

  /** The sliders the recursion reads: `minradius`, `minrecsize` and `strokewidth`. */
  datatype Settings = Settings(minRadius: real, minRecSize: real, strokeWidth: real)

  /** What `newrecurse` is called with: one circle, or an array of three. */
  datatype Target = One(circle: Shape) | Three(first: Shape, second: Shape, third: Shape)

  /** A scheduled call of `newgap(ci, cj, ck, gapdepth, recdepth)` or `newrecurse(target, gapdepth, recdepth)`. */
  datatype Job =
    | GapJob(ci: Shape, cj: Shape, ck: Shape, gapDepth: int, recDepth: int)
    | RecurseJob(target: Target, gapDepth: int, recDepth: int)

  /** A circle scheduled for drawing, with the depths it was reached at. */
  datatype Drawn = Drawn(circle: Shape, gapDepth: int, recDepth: int)

  /** `epsilon` in `newgap`. */
  const Epsilon: real := 0.000001

  function Abs(x: real): real {
    if x < 0.0 then -x else x
  }

  // ---------------------------------------------------------------------
  // newgap: choosing the circle that fills the gap
  // ---------------------------------------------------------------------

  /**
   * The candidate filter: an Apollonius circle is kept when it exists, is
   * larger than `minradius`, and is by more than `epsilon` smaller than
   * each of the three circles around it.
   */
  predicate Fits(c: Option<Shape>, ci: Shape, cj: Shape, ck: Shape, minRadius: real) {
    c.Some? && c.value.r > minRadius
    && c.value.r + Epsilon < Abs(ci.r) && c.value.r + Epsilon < Abs(cj.r) && c.value.r + Epsilon < Abs(ck.r)
  }

  /**
   * The tie-break between the two candidates `cl` and `cr`: when both fit,
   * `cr` replaces `cl` if it is larger; a candidate that does not fit is
   * dropped.
   */
  function Select(cl: Option<Shape>, cr: Option<Shape>, ci: Shape, cj: Shape, ck: Shape, minRadius: real): (c: Option<Shape>)
    ensures c.None? <==> !Fits(cl, ci, cj, ck, minRadius) && !Fits(cr, ci, cj, ck, minRadius)
    ensures c.Some? ==> Fits(c, ci, cj, ck, minRadius) && (c == cl || c == cr)
    ensures Fits(cl, ci, cj, ck, minRadius) && Fits(cr, ci, cj, ck, minRadius) ==>
      c.value.r >= cl.value.r && c.value.r >= cr.value.r
  {
    var l := if Fits(cl, ci, cj, ck, minRadius) then cl else None;
    var r := if Fits(cr, ci, cj, ck, minRadius) then cr else None;
    var l' := if l.Some? && r.Some? && l.value.r < r.value.r then r else l;
    if l'.None? then r else l'
  }

  /**
   * `newgap(ci, cj, ck, gapdepth, recdepth)`.  The chosen circle takes the
   * angle from its centre to `ci`'s; its inner copy is recursed into while
   * `recdepth > 0` and it is larger than `minrecsize`, and its outer copy
   * closes three smaller gaps with each pair of the three circles while
   * `gapdepth > 0`.
   */
  function GapJobs(ci: Shape, cj: Shape, ck: Shape, gapDepth: int, recDepth: int, s: Settings, env: Env): (jobs: seq<Job>)
    ensures |jobs| <= 4
    ensures gapDepth <= 0 && recDepth <= 0 ==> jobs == []
    ensures forall i | 0 <= i < |jobs| :: FromGap(jobs[i], gapDepth, recDepth, s.minRecSize)
  {
    var cl := env.apollonius(ci, cj, ck);
    var cr := env.apollonius(ci.Inverse(), cj.Inverse(), ck.Inverse());
    match Select(cl, cr, ci, cj, ck, s.minRadius)
    case None => []
    case Some(c0) =>
      var c := c0.(a := env.angle(c0.x, c0.y, ci.x, ci.y));
      (if recDepth > 0 && Abs(c.r) > s.minRecSize then [RecurseJob(One(c.Inner()), gapDepth, recDepth - 1)] else [])
      + (if gapDepth > 0 then
          [GapJob(c.Outer(), ci, cj, gapDepth - 1, recDepth),
           GapJob(c.Outer(), cj, ck, gapDepth - 1, recDepth),
           GapJob(c.Outer(), ck, ci, gapDepth - 1, recDepth)]
        else [])
  }

  /**
   * A job `newgap` may schedule: a recursion into one circle larger than
   * `minrecsize`, one level of recursion down, or a gap one level of gap
   * depth down, the other depth unchanged and the lowered one not negative.
   */
  predicate FromGap(job: Job, gapDepth: int, recDepth: int, minRecSize: real) {
    match job
    case RecurseJob(target, gd, rd) =>
      target.One? && Abs(target.circle.r) > minRecSize && gd == gapDepth && rd == recDepth - 1 >= 0
    case GapJob(_, _, _, gd, rd) =>
      gd == gapDepth - 1 >= 0 && rd == recDepth
  }

  // ---------------------------------------------------------------------
  // newrecurse
  // ---------------------------------------------------------------------

  /**
   * The jobs the two callbacks of `newrecurse` schedule for one callback
   * call: `recursecb` recurses into a circle larger than `minrecsize` with
   * one level of recursion less while both depths stay positive, and
   * `gapcb` fills a gap with one level of gap depth less while both stay
   * positive.
   */
  function CallbackJobs(v: Visit, gapDepth: int, recDepth: int, minRecSize: real): (jobs: seq<Job>)
    ensures |jobs| <= 1
    ensures forall i | 0 <= i < |jobs| :: FromCallback(jobs[i], gapDepth, recDepth, minRecSize)
  {
    match v
    case Recurse(c, _, _, _) =>
      if recDepth - 1 > 0 && gapDepth > 0 && c.r > minRecSize then [RecurseJob(One(c), gapDepth, recDepth - 1)] else []
    case Gap(outer, first, second, _, _, _, _) =>
      if recDepth > 0 && gapDepth - 1 > 0 then [GapJob(outer, first, second, gapDepth - 1, recDepth)] else []
  }

  /** The jobs the callbacks schedule over a whole subdivision trace, in callback order. */
  function TraceJobs(trace: seq<Visit>, gapDepth: int, recDepth: int, minRecSize: real): (jobs: seq<Job>)
    ensures |jobs| <= |trace|
    ensures forall i | 0 <= i < |jobs| :: FromCallback(jobs[i], gapDepth, recDepth, minRecSize)
  {
    if |trace| == 0 then []
    else
      var first, rest := CallbackJobs(trace[0], gapDepth, recDepth, minRecSize), TraceJobs(trace[1..], gapDepth, recDepth, minRecSize);
      assert forall i | |first| <= i < |first + rest| :: (first + rest)[i] == rest[i - |first|];
      first + rest
  }

  /**
   * A job one of the two callbacks may schedule: a recursion into a circle
   * larger than `minrecsize` one level of recursion down, or a gap one
   * level of gap depth down, with both depths still positive.
   */
  predicate FromCallback(job: Job, gapDepth: int, recDepth: int, minRecSize: real) {
    match job
    case RecurseJob(target, gd, rd) =>
      target.One? && target.circle.r > minRecSize && gd == gapDepth > 0 && rd == recDepth - 1 > 0
    case GapJob(_, _, _, gd, rd) =>
      gd == gapDepth - 1 > 0 && rd == recDepth > 0
  }

  /**
   * The circle `newrecurse` subdivides: `new Circle(x, y, r - strokewidth / 100, a)`,
   * the target shrunk by the stroke width.
   */
  function Inset(circle: Shape, s: Settings): Shape {
    Make(circle.x, circle.y, circle.r - s.strokeWidth / 100.0, circle.a, NoIndex)
  }

  /** The unfiltered subdivision `newrecurse` runs on the inset circle, as a callback trace. */
  function RingTrace(circle: Shape, gapDepth: int, recDepth: int, s: Settings, env: Env): seq<Visit> {
    var cc := Inset(circle, s);
    var num := env.symm(cc, gapDepth, recDepth);
    SubdivideTrace(cc, num, env.sine(num), env.ring(num), (_: Shape) => true)
  }

  /**
   * `newrecurse(target, gapdepth, recdepth)`, which acts only while both
   * depths are positive: three circles are handed to `newgap` at the same
   * depths; one circle larger than `minradius` is drawn and, when it is
   * also larger than `minrecsize`, subdivided with the callbacks above.
   */
  function RecurseJobs(target: Target, gapDepth: int, recDepth: int, s: Settings, env: Env): (r: (seq<Job>, seq<Drawn>))
    ensures !(gapDepth > 0 && recDepth > 0) ==> r == ([], [])
    ensures r.1 != [] ==> target.One? && target.circle.r > s.minRadius && r.1 == [Drawn(target.circle, gapDepth, recDepth)]
    ensures target.Three? ==> r.1 == [] && |r.0| <= 1
    ensures target.One? ==> forall i | 0 <= i < |r.0| :: FromCallback(r.0[i], gapDepth, recDepth, s.minRecSize)
  {
    if !(gapDepth > 0 && recDepth > 0) then ([], [])
    else match target
      case Three(c0, c1, c2) => ([GapJob(c0, c1, c2, gapDepth, recDepth)], [])
      case One(circle) =>
        if !(circle.r > s.minRadius) then ([], [])
        else
          var jobs := if circle.r > s.minRecSize then TraceJobs(RingTrace(circle, gapDepth, recDepth, s, env), gapDepth, recDepth, s.minRecSize) else [];
          (jobs, [Drawn(circle, gapDepth, recDepth)])
  }

  /** Running a job: the jobs it schedules on the work queue and the circles it schedules for drawing. */
  function Run(job: Job, s: Settings, env: Env): (r: (seq<Job>, seq<Drawn>))
    ensures job.GapJob? ==> r.1 == [] && |r.0| <= 4
    ensures |r.1| <= 1
    ensures r.1 != [] ==> job.RecurseJob? && job.target.One? && r.1 == [Drawn(job.target.circle, job.gapDepth, job.recDepth)]
  {
    match job
    case GapJob(ci, cj, ck, gd, rd) => (GapJobs(ci, cj, ck, gd, rd, s, env), [])
    case RecurseJob(target, gd, rd) => RecurseJobs(target, gd, rd, s, env)
  }

  /**
   * The termination measure of the recursion: twice the sum of the
   * non-negative parts of the depths, plus one for the three-circle form of
   * `newrecurse`, which forwards to `newgap` at the same depths.
   */
  function Rank(job: Job): nat {
    var gd := if job.gapDepth > 0 then job.gapDepth else 0;
    var rd := if job.recDepth > 0 then job.recDepth else 0;
    2 * (gd + rd) + (if job.RecurseJob? && job.target.Three? then 1 else 0)
  }

  // ---------------------------------------------------------------------
  // Properties
  // ---------------------------------------------------------------------

  /**
   * When both candidates fit, the larger is kept (the earlier one on a
   * tie), though the comment beside the test speaks of the smaller.
   */
  lemma SelectKeepsLarger(cl: Option<Shape>, cr: Option<Shape>, ci: Shape, cj: Shape, ck: Shape, minRadius: real)
    requires Fits(cl, ci, cj, ck, minRadius) && Fits(cr, ci, cj, ck, minRadius)
    ensures Select(cl, cr, ci, cj, ck, minRadius) == if cl.value.r < cr.value.r then cr else cl
  {
  }

  /** When only one candidate fits, it is the one chosen. */
  lemma SelectSingle(cl: Option<Shape>, cr: Option<Shape>, ci: Shape, cj: Shape, ck: Shape, minRadius: real)
    ensures Fits(cl, ci, cj, ck, minRadius) && !Fits(cr, ci, cj, ck, minRadius) ==> Select(cl, cr, ci, cj, ck, minRadius) == cl
    ensures !Fits(cl, ci, cj, ck, minRadius) && Fits(cr, ci, cj, ck, minRadius) ==> Select(cl, cr, ci, cj, ck, minRadius) == cr
  {
  }

  /** Every job `newgap` schedules lies strictly lower in the measure. */
  lemma GapJobsDescend(ci: Shape, cj: Shape, ck: Shape, gapDepth: int, recDepth: int, s: Settings, env: Env)
    ensures var jobs := GapJobs(ci, cj, ck, gapDepth, recDepth, s, env);
      forall i | 0 <= i < |jobs| :: Rank(jobs[i]) < Rank(GapJob(ci, cj, ck, gapDepth, recDepth))
  {
  }

  /**
   * The recursion terminates: every job a job schedules lies strictly lower
   * in the measure, so no chain of scheduled jobs is longer than the rank
   * of the job it starts from.
   */
  lemma RunDescends(job: Job, s: Settings, env: Env)
    ensures var jobs := Run(job, s, env).0;
      forall i | 0 <= i < |jobs| :: Rank(jobs[i]) < Rank(job)
  {
    match job
    case GapJob(ci, cj, ck, gd, rd) =>
      GapJobsDescend(ci, cj, ck, gd, rd, s, env);
    case RecurseJob(target, gd, rd) =>
      var jobs := RecurseJobs(target, gd, rd, s, env).0;
      forall i | 0 <= i < |jobs|
        ensures Rank(jobs[i]) < Rank(job)
      {
        if target.One? {
          assert FromCallback(jobs[i], gd, rd, s.minRecSize);
        }
      }
  }

  /**
   * The one job that does not lower the depths: `newrecurse` with three
   * circles forwards them to `newgap` unchanged, and with any depth not
   * positive it does nothing at all.
   */
  lemma ThreeForwards(c0: Shape, c1: Shape, c2: Shape, gapDepth: int, recDepth: int, s: Settings, env: Env)
    ensures gapDepth > 0 && recDepth > 0 ==>
      Run(RecurseJob(Three(c0, c1, c2), gapDepth, recDepth), s, env) == ([GapJob(c0, c1, c2, gapDepth, recDepth)], [])
    ensures !(gapDepth > 0 && recDepth > 0) ==> Run(RecurseJob(Three(c0, c1, c2), gapDepth, recDepth), s, env) == ([], [])
  {
  }

  /**
   * What `newgap` schedules once a circle is chosen: a recursion into its
   * inner copy first, when allowed, then the three gaps its outer copy
   * leaves with each pair of the given circles.
   */
  lemma GapJobsShape(ci: Shape, cj: Shape, ck: Shape, gapDepth: int, recDepth: int, s: Settings, env: Env)
    ensures var chosen := Select(env.apollonius(ci, cj, ck), env.apollonius(ci.Inverse(), cj.Inverse(), ck.Inverse()), ci, cj, ck, s.minRadius);
      var jobs := GapJobs(ci, cj, ck, gapDepth, recDepth, s, env);
      && (chosen.None? ==> jobs == [])
      && (chosen.Some? ==>
        var c := chosen.value.(a := env.angle(chosen.value.x, chosen.value.y, ci.x, ci.y));
        var rec := recDepth > 0 && Abs(c.r) > s.minRecSize;
        && |jobs| == (if rec then 1 else 0) + (if gapDepth > 0 then 3 else 0)
        && (rec ==> jobs[0] == RecurseJob(One(c.Inner()), gapDepth, recDepth - 1))
        && (gapDepth > 0 ==>
          var o := if rec then 1 else 0;
          && jobs[o] == GapJob(c.Outer(), ci, cj, gapDepth - 1, recDepth)
          && jobs[o + 1] == GapJob(c.Outer(), cj, ck, gapDepth - 1, recDepth)
          && jobs[o + 2] == GapJob(c.Outer(), ck, ci, gapDepth - 1, recDepth)))
  {
  }

  /**
   * `newrecurse` on one circle draws it exactly when both depths are
   * positive and it is larger than `minradius`, and schedules work only
   * when it is also larger than `minrecsize`.
   */
  lemma OneCircleDrawn(circle: Shape, gapDepth: int, recDepth: int, s: Settings, env: Env)
    ensures var (jobs, drawn) := Run(RecurseJob(One(circle), gapDepth, recDepth), s, env);
      && (drawn == if gapDepth > 0 && recDepth > 0 && circle.r > s.minRadius then [Drawn(circle, gapDepth, recDepth)] else [])
      && (!(gapDepth > 0 && recDepth > 0 && circle.r > s.minRadius && circle.r > s.minRecSize) ==> jobs == [])
  {
  }
}
