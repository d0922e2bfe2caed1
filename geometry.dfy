/**
 * The reflection line `associate_points` stores with every beam: the beam's segment from origin O
 * to reflection R, moved so that its midpoint is at the coordinate origin, scaled by the factor
 * (2·threshold)/length, and moved to R.
 */
module Geometry {
  import opened Wrappers
  import opened Failures
  import opened Models

  function Add(a: Vec3, b: Vec3): Vec3 { Vec3(a.x + b.x, a.y + b.y, a.z + b.z) }

  function Sub(a: Vec3, b: Vec3): Vec3 { Vec3(a.x - b.x, a.y - b.y, a.z - b.z) }

  function Scale(k: real, a: Vec3): Vec3 { Vec3(k * a.x, k * a.y, k * a.z) }

  function Neg(a: Vec3): Vec3 { Vec3(-a.x, -a.y, -a.z) }

  /** The squared Euclidean distance between two points. */
  function DistSq(a: Vec3, b: Vec3): real
  {
    (a.x - b.x) * (a.x - b.x) + (a.y - b.y) * (a.y - b.y) + (a.z - b.z) * (a.z - b.z)
  }

  /** `ST_LineInterpolatePoint(line, 0.5)` on a two-point line. */
  function Midpoint(s: Segment): (m: Vec3)
    ensures Sub(m, s.start) == Sub(s.end, m)
  {
    Scale(0.5, Add(s.start, s.end))
  }

  /** `ST_Translate` of a segment. */
  function Translate(s: Segment, d: Vec3): Segment { Segment(Add(s.start, d), Add(s.end, d)) }

  /** `ST_Scale` of a segment about the coordinate origin. */
  function ScaleSegment(s: Segment, k: real): Segment { Segment(Scale(k, s.start), Scale(k, s.end)) }

  /** The factor the centred beam is scaled by. */
  function ScaleFactor(threshold: real, length: real): real
    requires length != 0.0
  {
    (threshold * 2.0) / length
  }

  /**
   * The reflection line of a beam from `origin` to `reflection`, whose distance the store reports
   * as `length`; a zero length fails the statement with a division by zero. On success the line is
   * R ∓ (k/2)·(R − O) with k = 2·threshold/length: it runs along the beam, centred on R.
   */
  function ReflectionLine(origin: Vec3, reflection: Vec3, length: real, threshold: real): (r: Result<Segment, Failure>)
    ensures r.Failure? <==> length == 0.0
    ensures r.Failure? ==> r.error == Error(DivisionByZero)
    ensures r.Success? ==>
              var k := ScaleFactor(threshold, length);
              r.value == Segment(Add(reflection, Scale(k / 2.0, Sub(origin, reflection))),
                                 Add(reflection, Scale(k / 2.0, Sub(reflection, origin))))
  {
    if length == 0.0 then Failure(Error(DivisionByZero))
    else
      var line := Segment(origin, reflection);
      var k := ScaleFactor(threshold, length);
      Success(Translate(ScaleSegment(Translate(line, Neg(Midpoint(line))), k), reflection))
  }

  /** The reflection line's midpoint is the reflection point, not the beam's midpoint. */
  lemma ReflectionLineCentredOnReflection(origin: Vec3, reflection: Vec3, length: real, threshold: real)
    requires length != 0.0
    ensures Midpoint(ReflectionLine(origin, reflection, length, threshold).value) == reflection
  {
  }

  /** The reflection line points the same way as the beam: its end minus its start is k·(R − O). */
  lemma ReflectionLineAlongBeam(origin: Vec3, reflection: Vec3, length: real, threshold: real)
    requires length != 0.0
    ensures var s := ReflectionLine(origin, reflection, length, threshold).value;
            Sub(s.end, s.start) == Scale(ScaleFactor(threshold, length), Sub(reflection, origin))
  {
  }

  lemma DistSqScale(k: real, a: Vec3, b: Vec3)
    ensures DistSq(Add(b, Scale(k, Sub(a, b))), b) == k * k * DistSq(a, b)
  {
    var dx, dy, dz := a.x - b.x, a.y - b.y, a.z - b.z;
    assert DistSq(Add(b, Scale(k, Sub(a, b))), b) == (k * dx) * (k * dx) + (k * dy) * (k * dy) + (k * dz) * (k * dz);
    assert (k * dx) * (k * dx) == k * k * (dx * dx);
    assert (k * dy) * (k * dy) == k * k * (dy * dy);
    assert (k * dz) * (k * dz) == k * k * (dz * dz);
  }

  /** When the reported length is the beam's true length, the reflection line is 2·threshold long
      (its squared length is (2·threshold)²), whatever the beam's own length. */
  lemma ReflectionLineLength(origin: Vec3, reflection: Vec3, length: real, threshold: real)
    requires length > 0.0 && length * length == DistSq(origin, reflection)
    ensures var s := ReflectionLine(origin, reflection, length, threshold).value;
            DistSq(s.start, s.end) == (2.0 * threshold) * (2.0 * threshold)
  {
    var s := ReflectionLine(origin, reflection, length, threshold).value;
    var k := ScaleFactor(threshold, length);
    ReflectionLineAlongBeam(origin, reflection, length, threshold);
    var e := Add(s.start, Scale(k, Sub(reflection, origin)));
    assert s.end == e;
    var o' := Add(s.start, Sub(reflection, origin));
    assert DistSq(s.start, s.end) == DistSq(e, s.start);
    DistSqScale(k, o', s.start);
    assert Sub(o', s.start) == Sub(reflection, origin);
    assert DistSq(o', s.start) == DistSq(origin, reflection);
    assert k * length == 2.0 * threshold;
    assert k * k * (length * length) == (k * length) * (k * length);
  }
}
