/**
  The directional weight map a ship uses to choose where to flee: 64 buckets,
  one per direction, from which repulsors subtract a gaussian falloff; the
  bucket with the highest weight left is the chosen direction.
*/
module Repulsion {
  import opened Numeric
  import opened Vectors

  const NUM_ANGLES: nat := 64
  const ANGLE_STEP: real := TAU / 64.0
  /** The cap on the total strength of the wall repulsors of one call. */
  const MAX_WALL_WEIGHT: real := 1.5

  /**
    The arena rectangle. src/repulsion.rs imports it from `crate::simulation`,
    but no file of this source tree defines it: its two corners are an
    assumption of this model, the fields the raycast reads.
  */
  datatype Bounds = Bounds(min: Vec2, max: Vec2)
  {
    /** `p` lies strictly inside the rectangle. */
    predicate Contains(p: Vec2) {
      min.x < p.x < max.x && min.y < p.y < max.y
    }
  }

  // ---------------------------------------------------------------------
  // Pure helpers

  /** `gaussian`: `exp(-x^2 / (2 sigma^2))`, a weight in `(0, 1]`. */
  function Gaussian(lib: MathLib, x: real, sigma: real): (r: real)
    requires lib.Lawful() && sigma != 0.0
    ensures 0.0 < r <= 1.0
  {
    GaussianExponentNonPositive(x, sigma);
    lib.exp(-x * x / (2.0 * sigma * sigma))
  }

  lemma GaussianExponentNonPositive(x: real, sigma: real)
    requires sigma != 0.0
    ensures -x * x / (2.0 * sigma * sigma) <= 0.0
  {
    if 0.0 < sigma {
      MulPositive(2.0 * sigma, sigma);
    } else {
      MulPositive(-2.0 * sigma, -sigma);
      assert (-2.0 * sigma) * (-sigma) == 2.0 * sigma * sigma;
    }
    SquareNonNegative(x);
    assert -x * x == -(x * x);
    QuotientNonPositive(-x * x, 2.0 * sigma * sigma, 2.0 * sigma, sigma);
  }

  /**
    `angle_diff`: the signed angle from `b` to `a`, brought into `(-PI, PI]`
    by a whole number of turns.
  */
  function AngleDiff(a: real, b: real): (r: real)
    ensures -PI < r <= PI
    ensures WholeMultiple(a - b - r, TAU)
  {
    var diff := RemEuclid(a - b, TAU);
    if diff > PI then
      WholeMultipleShift(a - b - diff, TAU);
      assert a - b - diff + TAU == a - b - (diff - TAU);
      diff - TAU
    else
      diff
  }

  /** `bucket_to_angle`: bucket `b` points at `b * TAU / 64` radians. */
  function BucketToAngle(bucket: nat): (r: real)
    ensures 0.0 <= r
    ensures bucket < NUM_ANGLES ==> r < TAU
  {
    bucket as real * ANGLE_STEP
  }

  /** The strength of a repulsor at `angle`, felt by the bucket at `bucketAngle`. */
  function Falloff(lib: MathLib, bucketAngle: real, angle: real, strength: real, sigma: real): real
    requires lib.Lawful() && sigma != 0.0
  {
    strength * Gaussian(lib, Abs(AngleDiff(bucketAngle, angle)), sigma)
  }

  /** The weights after one repulsor: every bucket loses its falloff. */
  function Repelled(lib: MathLib, w: seq<real>, angle: real, strength: real, sigma: real): (r: seq<real>)
    requires lib.Lawful() && sigma != 0.0
    ensures |r| == |w|
  {
    seq(|w|, i requires 0 <= i < |w| => w[i] - Falloff(lib, BucketToAngle(i), angle, strength, sigma))
  }

  // ---------------------------------------------------------------------
  // Raycast

  /**
    The crossing time with the wall at coordinate `wall`, for a ray from `p`
    moving by `d` per unit of time, when the ray points toward that wall and
    the crossing lies ahead of it.
  */
  function Crossing(toward: bool, wall: real, p: real, d: real): seq<real>
    requires toward ==> d != 0.0
  {
    if toward && (wall - p) / d > 0.0 then [(wall - p) / d] else []
  }

  /**
    The crossing times of the ray `pos + t * dir` with the walls it points
    toward: the left and right walls for a non-zero `dir.x`, the top and
    bottom walls for a non-zero `dir.y`.
  */
  function WallHits(pos: Vec2, dir: Vec2, bounds: Bounds): seq<real> {
    Crossing(dir.x < 0.0, bounds.min.x, pos.x, dir.x)
    + Crossing(dir.x > 0.0, bounds.max.x, pos.x, dir.x)
    + Crossing(dir.y < 0.0, bounds.min.y, pos.y, dir.y)
    + Crossing(dir.y > 0.0, bounds.max.y, pos.y, dir.y)
  }

  /** The least of `start` and the values of `ts`. */
  function MinOf(start: real, ts: seq<real>): (r: real)
    ensures r <= start && forall i :: 0 <= i < |ts| ==> r <= ts[i]
    ensures r == start || exists i :: 0 <= i < |ts| && r == ts[i]
  {
    if ts == [] then start
    else
      var m := MinOf(start, ts[..|ts| - 1]);
      if ts[|ts| - 1] < m then ts[|ts| - 1] else m
  }

  /** The distance to the nearest wall ahead, or `f32::MAX` when there is none. */
  function RaycastDist(pos: Vec2, dir: Vec2, bounds: Bounds): real {
    MinOf(F32_MAX, WallHits(pos, dir, bounds))
  }

  /** Appending values to `ts` takes the least of the old result and them. */
  lemma {:induction false} MinOfAppend(start: real, ts: seq<real>, us: seq<real>)
    ensures MinOf(start, ts + us) == MinOf(MinOf(start, ts), us)
    decreases |us|
  {
    if us == [] {
      assert ts + us == ts;
    } else {
      assert (ts + us)[..|ts + us| - 1] == ts + us[..|us| - 1];
      MinOfAppend(start, ts, us[..|us| - 1]);
    }
  }

  /** `raycast_to_bounds`: narrows `f32::MAX` down wall by wall. */
  method RaycastToBounds(pos: Vec2, dir: Vec2, bounds: Bounds) returns (minDist: real)
    ensures minDist == RaycastDist(pos, dir, bounds)
  {
    minDist := F32_MAX;
    ghost var hits: seq<real> := [];
    // a ray heading left reaches x = bounds.min.x
    minDist := NarrowToWall(minDist, dir.x < 0.0, bounds.min.x, pos.x, dir.x);
    MinOfAppend(F32_MAX, hits, Crossing(dir.x < 0.0, bounds.min.x, pos.x, dir.x));
    hits := hits + Crossing(dir.x < 0.0, bounds.min.x, pos.x, dir.x);
    // a ray heading right reaches x = bounds.max.x
    minDist := NarrowToWall(minDist, dir.x > 0.0, bounds.max.x, pos.x, dir.x);
    MinOfAppend(F32_MAX, hits, Crossing(dir.x > 0.0, bounds.max.x, pos.x, dir.x));
    hits := hits + Crossing(dir.x > 0.0, bounds.max.x, pos.x, dir.x);
    // a ray heading to smaller y reaches y = bounds.min.y
    minDist := NarrowToWall(minDist, dir.y < 0.0, bounds.min.y, pos.y, dir.y);
    MinOfAppend(F32_MAX, hits, Crossing(dir.y < 0.0, bounds.min.y, pos.y, dir.y));
    hits := hits + Crossing(dir.y < 0.0, bounds.min.y, pos.y, dir.y);
    // a ray heading to larger y reaches y = bounds.max.y
    minDist := NarrowToWall(minDist, dir.y > 0.0, bounds.max.y, pos.y, dir.y);
    MinOfAppend(F32_MAX, hits, Crossing(dir.y > 0.0, bounds.max.y, pos.y, dir.y));
    hits := hits + Crossing(dir.y > 0.0, bounds.max.y, pos.y, dir.y);
    assert hits == WallHits(pos, dir, bounds);
  }

  /**
    One wall of `raycast_to_bounds`: when the ray points toward the wall and
    the crossing lies ahead, the distance so far shrinks to the crossing time
    if that is smaller.
  */
  method NarrowToWall(minDist: real, toward: bool, wall: real, p: real, d: real) returns (narrowed: real)
    requires toward ==> d != 0.0
    ensures narrowed == MinOf(minDist, Crossing(toward, wall, p, d))
  {
    narrowed := minDist;
    if toward {
      var t := (wall - p) / d;
      if t > 0.0 {
        narrowed := Min(narrowed, t);
      }
    }
  }

  /** A crossing time is ahead of the ray and puts the ray on the wall. */
  lemma CrossingOnWall(toward: bool, wall: real, p: real, d: real, t: real)
    requires toward ==> d != 0.0
    requires t in Crossing(toward, wall, p, d)
    ensures 0.0 < t && p + d * t == wall
  {
    if toward {
      DivMul(wall - p, d);
    }
  }

  /** The ray `pos + t * dir` meets one of the four wall lines. */
  ghost predicate OnWallLine(q: Vec2, bounds: Bounds) {
    q.x == bounds.min.x || q.x == bounds.max.x || q.y == bounds.min.y || q.y == bounds.max.y
  }

  /** The raycast never returns zero or less. */
  lemma RaycastDistPositive(pos: Vec2, dir: Vec2, bounds: Bounds)
    ensures 0.0 < RaycastDist(pos, dir, bounds)
  {
    RaycastDistLeastHit(pos, dir, bounds);
  }

  /**
    A ray that starts strictly inside the arena and moves meets a wall line
    ahead of it, so the raycast has a crossing to return.
  */
  lemma RaycastFromInsideHitsWall(pos: Vec2, dir: Vec2, bounds: Bounds)
    requires bounds.Contains(pos) && (dir.x != 0.0 || dir.y != 0.0)
    ensures exists t :: t in WallHits(pos, dir, bounds) && OnWallLine(pos.Plus(dir.Scale(t)), bounds)
  {
    var hits := WallHits(pos, dir, bounds);
    if dir.x < 0.0 {
      QuotientOfSameSign(bounds.min.x - pos.x, dir.x);
    } else if dir.x > 0.0 {
      QuotientOfSameSign(bounds.max.x - pos.x, dir.x);
    } else if dir.y < 0.0 {
      QuotientOfSameSign(bounds.min.y - pos.y, dir.y);
    } else {
      QuotientOfSameSign(bounds.max.y - pos.y, dir.y);
    }
    assert hits != [];
    WallHitsOnWalls(pos, dir, bounds);
    assert hits[0] in hits;
  }

  /** Every wall crossing is ahead of the ray and puts it on one of the wall lines. */
  lemma WallHitsOnWalls(pos: Vec2, dir: Vec2, bounds: Bounds)
    ensures forall t :: t in WallHits(pos, dir, bounds) ==>
      0.0 < t && OnWallLine(pos.Plus(dir.Scale(t)), bounds)
  {
    var left := Crossing(dir.x < 0.0, bounds.min.x, pos.x, dir.x);
    var right := Crossing(dir.x > 0.0, bounds.max.x, pos.x, dir.x);
    var top := Crossing(dir.y < 0.0, bounds.min.y, pos.y, dir.y);
    var bottom := Crossing(dir.y > 0.0, bounds.max.y, pos.y, dir.y);
    forall t | t in WallHits(pos, dir, bounds)
      ensures 0.0 < t && OnWallLine(pos.Plus(dir.Scale(t)), bounds)
    {
      assert t in left || t in right || t in top || t in bottom;
      if t in left {
        CrossingOnWall(dir.x < 0.0, bounds.min.x, pos.x, dir.x, t);
      } else if t in right {
        CrossingOnWall(dir.x > 0.0, bounds.max.x, pos.x, dir.x, t);
      } else if t in top {
        CrossingOnWall(dir.y < 0.0, bounds.min.y, pos.y, dir.y, t);
      } else {
        CrossingOnWall(dir.y > 0.0, bounds.max.y, pos.y, dir.y, t);
      }
    }
  }

  /**
    The raycast result is positive and at most `f32::MAX`; it is no larger
    than any wall crossing ahead, and it is either `f32::MAX` or one of them,
    a time at which the ray is on a wall line.
  */
  lemma RaycastDistLeastHit(pos: Vec2, dir: Vec2, bounds: Bounds)
    ensures 0.0 < RaycastDist(pos, dir, bounds) <= F32_MAX
    ensures forall t :: t in WallHits(pos, dir, bounds) ==> RaycastDist(pos, dir, bounds) <= t
    ensures RaycastDist(pos, dir, bounds) == F32_MAX
         || (RaycastDist(pos, dir, bounds) in WallHits(pos, dir, bounds)
             && OnWallLine(pos.Plus(dir.Scale(RaycastDist(pos, dir, bounds))), bounds))
  {
    var hits := WallHits(pos, dir, bounds);
    var r := RaycastDist(pos, dir, bounds);
    WallHitsOnWalls(pos, dir, bounds);
    forall t | t in hits
      ensures r <= t
    {
      var i :| 0 <= i < |hits| && hits[i] == t;
    }
    if r != F32_MAX {
      var i :| 0 <= i < |hits| && r == hits[i];
      assert r in hits;
    }
  }

  /**
    At time `t > 0` the ray `pos + t * dir` is on the line of a wall it is
    heading toward. Stated on the geometry alone, not on the wall tests.
  */
  ghost predicate CrossesAhead(pos: Vec2, dir: Vec2, bounds: Bounds, t: real) {
    0.0 < t
    && ((dir.x < 0.0 && pos.x + dir.x * t == bounds.min.x)
        || (dir.x > 0.0 && pos.x + dir.x * t == bounds.max.x)
        || (dir.y < 0.0 && pos.y + dir.y * t == bounds.min.y)
        || (dir.y > 0.0 && pos.y + dir.y * t == bounds.max.y))
  }

  /** The time at which `p + d * t` reaches `wall` is `(wall - p) / d`. */
  lemma CrossingTime(p: real, d: real, t: real, wall: real)
    requires d != 0.0 && p + d * t == wall
    ensures t == (wall - p) / d
  {
    assert wall - p == t * d;
  }

  /**
    The times the four wall tests keep are exactly the positive times at
    which the ray is on the line of a wall it heads toward.
  */
  lemma WallHitsAreCrossings(pos: Vec2, dir: Vec2, bounds: Bounds, t: real)
    ensures t in WallHits(pos, dir, bounds) <==> CrossesAhead(pos, dir, bounds, t)
  {
    CrossingIff(dir.x < 0.0, bounds.min.x, pos.x, dir.x, t);
    CrossingIff(dir.x > 0.0, bounds.max.x, pos.x, dir.x, t);
    CrossingIff(dir.y < 0.0, bounds.min.y, pos.y, dir.y, t);
    CrossingIff(dir.y > 0.0, bounds.max.y, pos.y, dir.y, t);
  }

  /** One wall test keeps `t` exactly when the ray heads toward the wall and is on it at `t > 0`. */
  lemma CrossingIff(toward: bool, wall: real, p: real, d: real, t: real)
    requires toward ==> d != 0.0
    ensures t in Crossing(toward, wall, p, d) <==> (0.0 < t && toward && p + d * t == wall)
  {
    if t in Crossing(toward, wall, p, d) {
      CrossingOnWall(toward, wall, p, d, t);
    } else if 0.0 < t && toward && p + d * t == wall {
      CrossingTime(p, d, t, wall);
    }
  }

  /**
    `raycast_to_bounds` returns the least positive time at which the ray meets
    the line of a wall it heads toward, or `f32::MAX` when that time does not
    exist or exceeds it.
  */
  lemma RaycastDistLeastCrossing(pos: Vec2, dir: Vec2, bounds: Bounds)
    ensures 0.0 < RaycastDist(pos, dir, bounds) <= F32_MAX
    ensures forall t :: CrossesAhead(pos, dir, bounds, t) ==> RaycastDist(pos, dir, bounds) <= t
    ensures RaycastDist(pos, dir, bounds) == F32_MAX
         || CrossesAhead(pos, dir, bounds, RaycastDist(pos, dir, bounds))
  {
    var r := RaycastDist(pos, dir, bounds);
    RaycastDistLeastHit(pos, dir, bounds);
    forall t | CrossesAhead(pos, dir, bounds, t)
      ensures r <= t
    {
      WallHitsAreCrossings(pos, dir, bounds, t);
    }
    WallHitsAreCrossings(pos, dir, bounds, r);
  }

  // ---------------------------------------------------------------------
  // Angles

  /**
    `angle_diff` is the only value in `(-PI, PI]` that differs from `a - b`
    by a whole number of turns.
  */
  lemma AngleDiffUnique(a: real, b: real, r: real)
    requires -PI < r <= PI
    requires WholeMultiple(a - b - r, TAU)
    ensures AngleDiff(a, b) == r
  {
    var r0 := AngleDiff(a, b);
    WholeMultipleDifference(a - b - r, a - b - r0, TAU);
    assert (a - b - r) - (a - b - r0) == r0 - r;
    WholeMultipleSmall(r0 - r, TAU);
  }

  /** Consecutive buckets are `ANGLE_STEP` apart, so distinct buckets point at distinct angles. */
  lemma BucketAnglesIncrease(b1: nat, b2: nat)
    requires b1 < b2
    ensures BucketToAngle(b1) < BucketToAngle(b2)
  {
    MulMonotoneStrict(b1 as real, b2 as real, ANGLE_STEP);
  }

  // ---------------------------------------------------------------------
  // Specification of the repulsor updates

  /** A repulsor lowers every bucket by its falloff: by at most its strength, and never raises one. */
  lemma {:induction false} RepelledBounds(lib: MathLib, w: seq<real>, angle: real, strength: real, sigma: real)
    requires lib.Lawful() && sigma != 0.0 && 0.0 <= strength
    ensures forall i :: 0 <= i < |w| ==>
      w[i] - strength <= Repelled(lib, w, angle, strength, sigma)[i] <= w[i]
    ensures 0.0 < strength ==> forall i :: 0 <= i < |w| ==>
      Repelled(lib, w, angle, strength, sigma)[i] < w[i]
  {
    forall i | 0 <= i < |w|
      ensures 0.0 <= Falloff(lib, BucketToAngle(i), angle, strength, sigma) <= strength
      ensures 0.0 < strength ==> 0.0 < Falloff(lib, BucketToAngle(i), angle, strength, sigma)
    {
      FalloffBounds(lib, BucketToAngle(i), angle, strength, sigma);
    }
  }

  /** The falloff of a repulsor of strength `s >= 0` lies in `[0, s]`, positive when `s` is. */
  lemma FalloffBounds(lib: MathLib, bucketAngle: real, angle: real, strength: real, sigma: real)
    requires lib.Lawful() && sigma != 0.0 && 0.0 <= strength
    ensures 0.0 <= Falloff(lib, bucketAngle, angle, strength, sigma) <= strength
    ensures 0.0 < strength ==> 0.0 < Falloff(lib, bucketAngle, angle, strength, sigma)
  {
    var g := Gaussian(lib, Abs(AngleDiff(bucketAngle, angle)), sigma);
    assert Falloff(lib, bucketAngle, angle, strength, sigma) == strength * g;
    assert 0.0 < g <= 1.0;
    if 0.0 < strength {
      MulPositive(strength, g);
      assert 0.0 < strength * g;
      MulMonotone(g, 1.0, strength);
      assert g * strength <= strength;
    }
  }

  // ---------------------------------------------------------------------
  // Wall repulsion

  /** An `(angle, strength)` pair collected by `add_wall_repulsion`. */
  datatype Repulsor = Repulsor(angle: real, strength: real)
  {
    /** The strength actually applied once the wall scale is taken into account. */
    function Scaled(scale: real): real { strength * scale }
  }

  /** The distance to the wall in the direction of bucket `b`. */
  function WallDist(lib: MathLib, pos: Vec2, bounds: Bounds, bucket: nat): real {
    RaycastDist(pos, FromAngle(lib, BucketToAngle(bucket)), bounds)
  }

  /** The wall distance in every bucket's direction, bucket by bucket. */
  function WallDists(lib: MathLib, pos: Vec2, bounds: Bounds): (r: seq<real>)
    ensures |r| == NUM_ANGLES
    ensures forall b :: 0 <= b < NUM_ANGLES ==> r[b] == WallDist(lib, pos, bounds, b)
    ensures forall b :: 0 <= b < NUM_ANGLES ==> 0.0 < r[b]
  {
    forall b | 0 <= b < NUM_ANGLES
      ensures 0.0 < WallDist(lib, pos, bounds, b)
    {
      RaycastDistPositive(pos, FromAngle(lib, BucketToAngle(b)), bounds);
    }
    seq(NUM_ANGLES, b requires 0 <= b => WallDist(lib, pos, bounds, b))
  }

  /**
    The repulsor bucket `bucket` contributes, given the wall distance of every
    bucket: one at the bucket's angle with strength `1 - dist / detectRange`
    when its wall is closer than `detectRange`, none otherwise.
  */
  function BucketWallRepulsor(dists: seq<real>, detectRange: real, bucket: nat): seq<Repulsor>
    requires bucket < |dists|
    requires forall b :: 0 <= b < |dists| ==> 0.0 < dists[b]
  {
    if dists[bucket] < detectRange then
      [Repulsor(BucketToAngle(bucket), 1.0 - dists[bucket] / detectRange)]
    else
      []
  }

  /** The repulsors the first loop of `add_wall_repulsion` collects from buckets `0 .. n`. */
  function WallRepulsors(dists: seq<real>, detectRange: real, n: nat): seq<Repulsor>
    requires n <= |dists|
    requires forall b :: 0 <= b < |dists| ==> 0.0 < dists[b]
  {
    if n == 0 then []
    else WallRepulsors(dists, detectRange, n - 1) + BucketWallRepulsor(dists, detectRange, n - 1)
  }

  /** The sum of the strengths, added up in order. */
  function TotalStrength(rs: seq<Repulsor>): real {
    if rs == [] then 0.0 else TotalStrength(rs[..|rs| - 1]) + rs[|rs| - 1].strength
  }

  lemma TotalStrengthAppend(rs: seq<Repulsor>, r: Repulsor)
    ensures TotalStrength(rs + [r]) == TotalStrength(rs) + r.strength
  {
    assert (rs + [r])[..|rs|] == rs;
  }

  /** The factor that brings a total above `MAX_WALL_WEIGHT` down to it. */
  function WallScale(total: real): real {
    if total > MAX_WALL_WEIGHT then MAX_WALL_WEIGHT / total else 1.0
  }

  /** The weights after adding each repulsor of `rs`, in order, at `strength * scale`. */
  function ApplyAll(lib: MathLib, w: seq<real>, rs: seq<Repulsor>, scale: real, sigma: real): (r: seq<real>)
    requires lib.Lawful() && sigma != 0.0
    ensures |r| == |w|
  {
    if rs == [] then w
    else
      var last := rs[|rs| - 1];
      Repelled(lib, ApplyAll(lib, w, rs[..|rs| - 1], scale, sigma), last.angle, last.Scaled(scale), sigma)
  }

  /** Applying one more repulsor of `rs` is one more `Repelled`. */
  lemma ApplyAllStep(lib: MathLib, w: seq<real>, rs: seq<Repulsor>, i: nat, scale: real, sigma: real)
    requires lib.Lawful() && sigma != 0.0 && i < |rs|
    ensures ApplyAll(lib, w, rs[..i + 1], scale, sigma)
         == Repelled(lib, ApplyAll(lib, w, rs[..i], scale, sigma), rs[i].angle, rs[i].Scaled(scale), sigma)
  {
    assert rs[..i + 1][..i] == rs[..i];
  }

  /** What `add_wall_repulsion` does to the weights `w`. */
  function WallRepelled(lib: MathLib, w: seq<real>, pos: Vec2, bounds: Bounds, detectRange: real, sigma: real): seq<real>
    requires lib.Lawful() && sigma != 0.0
  {
    var rs := WallRepulsors(WallDists(lib, pos, bounds), detectRange, NUM_ANGLES);
    ApplyAll(lib, w, rs, WallScale(TotalStrength(rs)), sigma)
  }

  /** `WallRepelled` in terms of the collected repulsors and their total. */
  lemma WallRepelledFrom(lib: MathLib, w: seq<real>, pos: Vec2, bounds: Bounds, detectRange: real, sigma: real,
                         rs: seq<Repulsor>, total: real)
    requires lib.Lawful() && sigma != 0.0
    requires rs == WallRepulsors(WallDists(lib, pos, bounds), detectRange, NUM_ANGLES) && total == TotalStrength(rs)
    ensures WallRepelled(lib, w, pos, bounds, detectRange, sigma) == ApplyAll(lib, w, rs, WallScale(total), sigma)
  {
  }

  /** With positive distances, every wall repulsor has a strength strictly between 0 and 1. */
  lemma {:induction false} WallStrengthsInUnitInterval(dists: seq<real>, detectRange: real, n: nat)
    requires n <= |dists|
    requires forall b :: 0 <= b < |dists| ==> 0.0 < dists[b]
    ensures forall i :: 0 <= i < |WallRepulsors(dists, detectRange, n)| ==>
      0.0 < WallRepulsors(dists, detectRange, n)[i].strength < 1.0
  {
    if n > 0 {
      WallStrengthsInUnitInterval(dists, detectRange, n - 1);
      var dist := dists[n - 1];
      if dist < detectRange {
        DivUnitInterval(dist, detectRange);
        assert 0.0 < dist / detectRange by {
          MulPositive(dist, 1.0 / detectRange);
        }
      }
    }
  }

  /** No repulsor at all exactly when no bucket below `n` has its wall closer than `detectRange`. */
  lemma {:induction false} WallRepulsorsEmptyIff(dists: seq<real>, detectRange: real, n: nat)
    requires n <= |dists|
    requires forall b :: 0 <= b < |dists| ==> 0.0 < dists[b]
    ensures WallRepulsors(dists, detectRange, n) == []
        <==> forall b :: 0 <= b < n ==> detectRange <= dists[b]
  {
    if n > 0 {
      WallRepulsorsEmptyIff(dists, detectRange, n - 1);
    }
  }

  /** Every collected repulsor comes from a bucket whose wall is closer than `detectRange`. */
  lemma {:induction false} WallRepulsorsSound(dists: seq<real>, detectRange: real, n: nat)
    requires n <= |dists|
    requires forall b :: 0 <= b < |dists| ==> 0.0 < dists[b]
    ensures forall r :: r in WallRepulsors(dists, detectRange, n) ==>
      exists b :: 0 <= b < n && dists[b] < detectRange
               && r == Repulsor(BucketToAngle(b), 1.0 - dists[b] / detectRange)
  {
    if n > 0 {
      WallRepulsorsSound(dists, detectRange, n - 1);
      var init := WallRepulsors(dists, detectRange, n - 1);
      var last := BucketWallRepulsor(dists, detectRange, n - 1);
      forall r | r in init + last
        ensures exists b :: 0 <= b < n && dists[b] < detectRange
                         && r == Repulsor(BucketToAngle(b), 1.0 - dists[b] / detectRange)
      {
        if r !in init {
          var b := n - 1;
          assert r in last;
          assert dists[b] < detectRange && r == Repulsor(BucketToAngle(b), 1.0 - dists[b] / detectRange);
        }
      }
    }
  }

  /** Every bucket whose wall is closer than `detectRange` contributes its repulsor. */
  lemma {:induction false} WallRepulsorsComplete(dists: seq<real>, detectRange: real, n: nat)
    requires n <= |dists|
    requires forall b :: 0 <= b < |dists| ==> 0.0 < dists[b]
    ensures forall b :: 0 <= b < n && dists[b] < detectRange ==>
      Repulsor(BucketToAngle(b), 1.0 - dists[b] / detectRange) in WallRepulsors(dists, detectRange, n)
  {
    if n > 0 {
      WallRepulsorsComplete(dists, detectRange, n - 1);
      var init := WallRepulsors(dists, detectRange, n - 1);
      var last := BucketWallRepulsor(dists, detectRange, n - 1);
      assert WallRepulsors(dists, detectRange, n) == init + last;
      forall b | 0 <= b < n && dists[b] < detectRange
        ensures Repulsor(BucketToAngle(b), 1.0 - dists[b] / detectRange) in init + last
      {
        if b == n - 1 {
          assert Repulsor(BucketToAngle(b), 1.0 - dists[b] / detectRange) in last;
        }
      }
    }
  }

  /** Non-negative strengths add up to a non-negative total. */
  lemma {:induction false} TotalStrengthNonNegative(rs: seq<Repulsor>)
    requires forall i :: 0 <= i < |rs| ==> 0.0 <= rs[i].strength
    ensures 0.0 <= TotalStrength(rs)
  {
    if rs != [] {
      TotalStrengthNonNegative(rs[..|rs| - 1]);
    }
  }

  /**
    The scale lies in `(0, 1]`, and the scaled total is the total capped at
    `MAX_WALL_WEIGHT`.
  */
  lemma WallScaleCaps(total: real)
    requires 0.0 <= total
    ensures 0.0 < WallScale(total) <= 1.0
    ensures WallScale(total) * total == Min(total, MAX_WALL_WEIGHT)
  {
    if total > MAX_WALL_WEIGHT {
      DivMul(MAX_WALL_WEIGHT, total);
      DivUnitInterval(MAX_WALL_WEIGHT, total);
    }
  }

  /**
    Applying repulsors of non-negative strength at a non-negative scale lowers
    every weight by at least nothing and at most the scaled total strength.
  */
  lemma ApplyAllBounds(lib: MathLib, w: seq<real>, rs: seq<Repulsor>, scale: real, sigma: real)
    requires lib.Lawful() && sigma != 0.0 && 0.0 <= scale
    requires forall i :: 0 <= i < |rs| ==> 0.0 <= rs[i].strength
    ensures forall i :: 0 <= i < |w| ==>
      w[i] - scale * TotalStrength(rs) <= ApplyAll(lib, w, rs, scale, sigma)[i] <= w[i]
  {
    ScaledTotal(rs, scale);
    forall i | 0 <= i < |w|
      ensures w[i] - ScaledStrength(rs, scale) <= ApplyAll(lib, w, rs, scale, sigma)[i] <= w[i]
    {
      ApplyAllBoundsAt(lib, w, rs, scale, sigma, i);
    }
  }

  /** The sum of the scaled strengths. */
  function ScaledStrength(rs: seq<Repulsor>, scale: real): real {
    if rs == [] then 0.0 else ScaledStrength(rs[..|rs| - 1], scale) + rs[|rs| - 1].Scaled(scale)
  }

  /** Scaling every strength scales the total. */
  lemma {:induction false} ScaledTotal(rs: seq<Repulsor>, scale: real)
    ensures ScaledStrength(rs, scale) == scale * TotalStrength(rs)
    decreases |rs|
  {
    if rs != [] {
      var init := rs[..|rs| - 1];
      ScaledTotal(init, scale);
      ScaleSum(scale, TotalStrength(rs), TotalStrength(init), rs[|rs| - 1].strength,
        ScaledStrength(init, scale), rs[|rs| - 1].Scaled(scale));
    }
  }

  /**
    The wall scale lies in `(0, 1]`, and the strengths actually applied,
    `strength * scale`, add up to the total capped at `MAX_WALL_WEIGHT`.
  */
  lemma WallAppliedTotal(rs: seq<Repulsor>)
    requires forall i :: 0 <= i < |rs| ==> 0.0 <= rs[i].strength
    ensures 0.0 < WallScale(TotalStrength(rs)) <= 1.0
    ensures ScaledStrength(rs, WallScale(TotalStrength(rs))) == Min(TotalStrength(rs), MAX_WALL_WEIGHT)
  {
    TotalStrengthNonNegative(rs);
    WallScaleCaps(TotalStrength(rs));
    ScaledTotal(rs, WallScale(TotalStrength(rs)));
  }

  /** `ApplyAllBounds` at one bucket `i`, by induction on the repulsors. */
  lemma {:induction false} ApplyAllBoundsAt(lib: MathLib, w: seq<real>, rs: seq<Repulsor>, scale: real, sigma: real, i: nat)
    requires lib.Lawful() && sigma != 0.0 && 0.0 <= scale && i < |w|
    requires forall k :: 0 <= k < |rs| ==> 0.0 <= rs[k].strength
    ensures w[i] - ScaledStrength(rs, scale) <= ApplyAll(lib, w, rs, scale, sigma)[i] <= w[i]
    decreases |rs|
  {
    if rs != [] {
      var init := rs[..|rs| - 1];
      var last := rs[|rs| - 1];
      ApplyAllBoundsAt(lib, w, init, scale, sigma, i);
      ApplyAllLastAt(lib, w, rs, scale, sigma, i);
      MulNonNegative(last.strength, scale);
      FalloffBounds(lib, BucketToAngle(i), last.angle, last.Scaled(scale), sigma);
    }
  }

  /** The last repulsor of `rs` takes its falloff off bucket `i`. */
  lemma ApplyAllLastAt(lib: MathLib, w: seq<real>, rs: seq<Repulsor>, scale: real, sigma: real, i: nat)
    requires lib.Lawful() && sigma != 0.0 && i < |w| && rs != []
    ensures ApplyAll(lib, w, rs, scale, sigma)[i]
         == ApplyAll(lib, w, rs[..|rs| - 1], scale, sigma)[i]
            - Falloff(lib, BucketToAngle(i), rs[|rs| - 1].angle, rs[|rs| - 1].Scaled(scale), sigma)
  {
  }

  /** Scaling a total scales each of its two parts. */
  lemma ScaleSum(scale: real, total: real, init: real, last: real, dropped: real, scaled: real)
    requires total == init + last && dropped == scale * init && scaled == last * scale
    ensures scale * total == dropped + scaled
  {
  }

  /**
    `add_wall_repulsion` never raises a weight and never lowers one by more
    than `MAX_WALL_WEIGHT`, however many walls are near.
  */
  lemma WallRepulsionBounded(lib: MathLib, w: seq<real>, pos: Vec2, bounds: Bounds, detectRange: real, sigma: real)
    requires lib.Lawful() && sigma != 0.0
    ensures |WallRepelled(lib, w, pos, bounds, detectRange, sigma)| == |w|
    ensures forall i :: 0 <= i < |w| ==>
      w[i] - MAX_WALL_WEIGHT <= WallRepelled(lib, w, pos, bounds, detectRange, sigma)[i] <= w[i]
  {
    var rs := WallRepulsors(WallDists(lib, pos, bounds), detectRange, NUM_ANGLES);
    var total := TotalStrength(rs);
    WallStrengthsInUnitInterval(WallDists(lib, pos, bounds), detectRange, NUM_ANGLES);
    TotalStrengthNonNegative(rs);
    WallScaleCaps(total);
    ApplyAllBounds(lib, w, rs, WallScale(total), sigma);
  }

  /** With no wall closer than `detectRange` in any direction, the weights are unchanged. */
  lemma NoNearWallNoChange(lib: MathLib, w: seq<real>, pos: Vec2, bounds: Bounds, detectRange: real, sigma: real)
    requires lib.Lawful() && sigma != 0.0
    requires forall b :: 0 <= b < NUM_ANGLES ==> detectRange <= WallDist(lib, pos, bounds, b)
    ensures WallRepelled(lib, w, pos, bounds, detectRange, sigma) == w
  {
    WallRepulsorsEmptyIff(WallDists(lib, pos, bounds), detectRange, NUM_ANGLES);
  }

  // ---------------------------------------------------------------------
  // Velocity penalty and best angle

  /** The heading opposite to `velocity`, as `(to_angle + PI).rem_euclid(TAU)`. */
  function OppositeHeading(lib: MathLib, velocity: Vec2): real {
    RemEuclid(ToAngle(lib, velocity) + PI, TAU)
  }

  /**
    The opposite heading lies in `[0, TAU)` and is exactly half a turn from
    the heading, as `angle_diff` measures it.
  */
  lemma OppositeIsHalfTurn(lib: MathLib, velocity: Vec2)
    ensures 0.0 <= OppositeHeading(lib, velocity) < TAU
    ensures AngleDiff(OppositeHeading(lib, velocity), ToAngle(lib, velocity)) == PI
  {
    var heading := ToAngle(lib, velocity);
    var opposite := OppositeHeading(lib, velocity);
    WholeMultipleDifference(0.0, heading + PI - opposite, TAU);
    assert 0.0 - (heading + PI - opposite) == opposite - heading - PI;
    AngleDiffUnique(opposite, heading, PI);
  }

  /**
    The first index holding the largest weight: every weight is at most the
    one there, and every earlier weight is strictly smaller.
  */
  function FirstArgmax(w: seq<real>): (b: nat)
    requires |w| > 0
    ensures b < |w|
    ensures forall j :: 0 <= j < |w| ==> w[j] <= w[b]
    ensures forall j :: 0 <= j < b ==> w[j] < w[b]
  {
    if |w| == 1 then 0
    else
      var b := FirstArgmax(w[..|w| - 1]);
      if w[|w| - 1] > w[b] then |w| - 1 else b
  }

  /** The two properties of `FirstArgmax` pin the index down. */
  lemma FirstArgmaxUnique(w: seq<real>, b: nat)
    requires b < |w|
    requires forall j :: 0 <= j < |w| ==> w[j] <= w[b]
    requires forall j :: 0 <= j < b ==> w[j] < w[b]
    ensures FirstArgmax(w) == b
  {
    var f := FirstArgmax(w);
    assert !(f < b) by {
      assert w[f] <= w[b];
    }
    assert !(b < f) by {
      assert w[b] <= w[f];
    }
  }

  /** When every weight is the same, the first bucket wins. */
  lemma FirstArgmaxAllEqual(w: seq<real>)
    requires |w| > 0
    requires forall j :: 0 <= j < |w| ==> w[j] == w[0]
    ensures FirstArgmax(w) == 0
  {
  }

  // ---------------------------------------------------------------------
  // The map

  /**
    One round of the first loop of `add_wall_repulsion`: raycast along the
    bucket's direction and, if a wall is closer than `detectRange`, append a
    repulsor and add its strength to the running total.
  */
  method CollectWallRepulsor(lib: MathLib, pos: Vec2, bounds: Bounds, detectRange: real, bucket: nat,
                             wallRepulsors: seq<Repulsor>, totalStrength: real)
    returns (wallRepulsors': seq<Repulsor>, totalStrength': real)
    requires bucket < NUM_ANGLES && totalStrength == TotalStrength(wallRepulsors)
    ensures wallRepulsors' == wallRepulsors + BucketWallRepulsor(WallDists(lib, pos, bounds), detectRange, bucket)
    ensures totalStrength' == TotalStrength(wallRepulsors')
  {
    var angle := BucketToAngle(bucket);
    var dir := FromAngle(lib, angle);
    var dist := RaycastToBounds(pos, dir, bounds);
    if dist < detectRange {
      var strength := 1.0 - dist / detectRange;
      TotalStrengthAppend(wallRepulsors, Repulsor(angle, strength));
      wallRepulsors' := wallRepulsors + [Repulsor(angle, strength)];
      totalStrength' := totalStrength + strength;
    } else {
      wallRepulsors' := wallRepulsors;
      totalStrength' := totalStrength;
    }
  }

  class RepulsionMap {
    /** One weight per direction bucket. */
    const weights: array<real>

    ghost predicate Valid() {
      weights.Length == NUM_ANGLES
    }

    /** `new`: 64 buckets, all at weight zero. */
    constructor ()
      ensures Valid() && fresh(weights)
      ensures weights[..] == seq(NUM_ANGLES, _ => 0.0)
    {
      weights := new real[NUM_ANGLES](_ => 0.0);
    }

    /** `add_repulsor`: every bucket loses the repulsor's falloff at its angle. */
    method AddRepulsor(lib: MathLib, angle: real, strength: real, sigma: real)
      requires Valid() && lib.Lawful() && sigma != 0.0
      modifies weights
      ensures weights[..] == Repelled(lib, old(weights[..]), angle, strength, sigma)
    {
      ghost var before := weights[..];
      for bucket := 0 to NUM_ANGLES
        invariant forall i :: 0 <= i < bucket ==>
          weights[i] == before[i] - Falloff(lib, BucketToAngle(i), angle, strength, sigma)
        invariant forall i :: bucket <= i < NUM_ANGLES ==> weights[i] == before[i]
      {
        var bucketAngle := BucketToAngle(bucket);
        var diff := Abs(AngleDiff(bucketAngle, angle));
        var weight := strength * Gaussian(lib, diff, sigma);
        MulEqual(strength, Gaussian(lib, diff, sigma),
          strength, Gaussian(lib, Abs(AngleDiff(BucketToAngle(bucket), angle)), sigma));
        weights[bucket] := weights[bucket] - weight;
      }
    }

    /**
      `add_wall_repulsion`: collects a repulsor for every bucket whose wall is
      closer than `detectRange`, then adds them all, scaled so that their
      strengths sum to at most `MAX_WALL_WEIGHT`.
    */
    method AddWallRepulsion(lib: MathLib, pos: Vec2, bounds: Bounds, detectRange: real, sigma: real)
      requires Valid() && lib.Lawful() && sigma != 0.0
      modifies weights
      ensures weights[..] == WallRepelled(lib, old(weights[..]), pos, bounds, detectRange, sigma)
    {
      var wallRepulsors: seq<Repulsor> := [];
      var totalStrength := 0.0;

      for bucket := 0 to NUM_ANGLES
        invariant wallRepulsors == WallRepulsors(WallDists(lib, pos, bounds), detectRange, bucket)
        invariant totalStrength == TotalStrength(wallRepulsors)
        invariant weights[..] == old(weights[..])
      {
        wallRepulsors, totalStrength := CollectWallRepulsor(lib, pos, bounds, detectRange, bucket, wallRepulsors, totalStrength);
      }

      var scale := if totalStrength > MAX_WALL_WEIGHT then MAX_WALL_WEIGHT / totalStrength else 1.0;
      assert scale == WallScale(totalStrength);
      WallRepelledFrom(lib, weights[..], pos, bounds, detectRange, sigma, wallRepulsors, totalStrength);
      AddAll(lib, wallRepulsors, scale, sigma);
    }

    /** The second loop of `add_wall_repulsion`: every repulsor in turn, at its strength times `scale`. */
    method AddAll(lib: MathLib, rs: seq<Repulsor>, scale: real, sigma: real)
      requires Valid() && lib.Lawful() && sigma != 0.0
      modifies weights
      ensures weights[..] == ApplyAll(lib, old(weights[..]), rs, scale, sigma)
    {
      ghost var before := weights[..];
      for i := 0 to |rs|
        invariant weights[..] == ApplyAll(lib, before, rs[..i], scale, sigma)
      {
        var r := rs[i];
        ApplyAllStep(lib, before, rs, i, scale, sigma);
        AddRepulsor(lib, r.angle, r.Scaled(scale), sigma);
      }
      assert rs[..|rs|] == rs;
    }

    /**
      `add_velocity_penalty`: nothing for a velocity with squared length below
      `0.001`; otherwise a repulsor at the heading opposite to the velocity.
    */
    method AddVelocityPenalty(lib: MathLib, velocity: Vec2, strength: real, sigma: real)
      requires Valid() && lib.Lawful() && sigma != 0.0
      modifies weights
      ensures velocity.LengthSquared() < 0.001 ==> weights[..] == old(weights[..])
      ensures 0.001 <= velocity.LengthSquared() ==>
        weights[..] == Repelled(lib, old(weights[..]), OppositeHeading(lib, velocity), strength, sigma)
    {
      if velocity.LengthSquared() < 0.001 {
        return;
      }
      var currentHeading := ToAngle(lib, velocity);
      var opposite := RemEuclid(currentHeading + PI, TAU);
      AddRepulsor(lib, opposite, strength, sigma);
    }

    /** `best_angle`: the angle of the first bucket holding the highest weight. */
    method BestAngle() returns (angle: real)
      requires Valid()
      ensures angle == BucketToAngle(FirstArgmax(weights[..]))
    {
      var bestBucket := 0;
      var bestWeight := weights[0];
      for bucket := 1 to NUM_ANGLES
        invariant bestBucket == FirstArgmax(weights[..bucket])
        invariant bestWeight == weights[bestBucket]
      {
        assert weights[..bucket + 1][..bucket] == weights[..bucket];
        if weights[bucket] > bestWeight {
          bestWeight := weights[bucket];
          bestBucket := bucket;
        }
      }
      assert weights[..NUM_ANGLES] == weights[..];
      angle := BucketToAngle(bestBucket);
    }
  }
}
