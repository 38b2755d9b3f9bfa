/** The geometry, the capture rectangle and the reference clock of the
    stroboscope (include/strobe.hh and src/strobe.cc).

    Coordinates are reals; the floating-point rounding of the C++ program is
    not modelled. The reference angle only ever takes the values 0, 6, ..., 354,
    which a float holds exactly, so it is an int here. */
module Strobe {

  /** Display size (WIDTH, HEIGHT) and the reference clock's constants
      (ANGLE_MAX, ANGLE_STEPS, ANGLE_DELTA). */
  const Width: int := 600
  const Height: int := 600
  const AngleMax: int := 360
  const AngleSteps: int := 60
  const AngleDelta: int := AngleMax / AngleSteps

  lemma ClockConstants()
    ensures AngleDelta == 6
    ensures AngleSteps * AngleDelta == AngleMax
  {
  }

  /** Every radial point is measured from the display centre: the only
      RadialPoint constructor sets cx_ and cy_ to WIDTH / 2 and HEIGHT / 2,
      whatever its arguments, so the centre is a constant here rather than a
      per-point field. */
  const CentreX: real := Width as real / 2.0
  const CentreY: real := Height as real / 2.0

  lemma CentreIsMidDisplay()
    ensures CentreX == 300.0 && CentreY == 300.0
  {
  }

  /** A cartesian point; GetX and GetY are the destructors x and y. */
  datatype Point = Point(x: real, y: real)

  /** A point given by its distance from the centre and its angle in degrees. */
  datatype RadialPoint = RadialPoint(radius: real, angle: real)

  /** A line segment between two radial points; GetStart and GetEnd are the
      destructors start and end. Its draw colour is not modelled. */
  datatype Segment = Segment(start: RadialPoint, end: RadialPoint)

  /** The capture region, an axis-aligned box from corner p1 to corner p2.
      The constructor from two points is the datatype constructor itself. */
  datatype Rectangle = Rectangle(p1: Point, p2: Point)

  /** The constructor from four coordinates. */
  function RectangleOf(x1: real, y1: real, x2: real, y2: real): (r: Rectangle)
    ensures r.p1.x == x1 && r.p1.y == y1
    ensures r.p2.x == x2 && r.p2.y == y2
  {
    Rectangle(Point(x1, y1), Point(x2, y2))
  }

  /** Cosine and sine of an angle in DEGREES. They stand for the
      floating-point cos and sin of the C library applied to the approximate
      degree-to-radian conversion; both are left abstract. */
  datatype Trig = Trig(cos: real -> real, sin: real -> real)

  /** The cartesian point at distance `radius` from the centre in direction
      `angle`. */
  function Place(radius: real, angle: real, trig: Trig): Point
  {
    Point(CentreX + radius * trig.cos(angle), CentreY + radius * trig.sin(angle))
  }

  /** Where `p` lies when rotated by `offset` degrees. */
  function GetXY(p: RadialPoint, offset: real, trig: Trig): (r: Point)
    ensures p.radius == 0.0 ==> r == Point(CentreX, CentreY)
    ensures trig.cos(p.angle + offset) == 0.0 ==> r.x == CentreX
    ensures trig.sin(p.angle + offset) == 0.0 ==> r.y == CentreY
  {
    Place(p.radius, p.angle + offset, trig)
  }

  /** The stored angle and the offset enter only through their sum: rotating
      by b is the same as storing the angle a + b and rotating by 0. */
  lemma GetXYDependsOnSum(p: RadialPoint, b: real, c: real, trig: Trig)
    ensures GetXY(p, b, trig) == GetXY(RadialPoint(p.radius, p.angle + b), 0.0, trig)
    ensures GetXY(p, b, trig) == GetXY(RadialPoint(p.radius, p.angle + c), b - c, trig)
  {
    assert (p.angle + c) + (b - c) == p.angle + b;
  }

  /** A point of radius 0 sits on the centre whatever the angles. */
  lemma GetXYOfZeroRadius(a: real, b: real, trig: Trig)
    ensures GetXY(RadialPoint(0.0, a), b, trig) == Point(CentreX, CentreY)
  {
  }

  /** Closed-box membership: both bounds are inclusive. */
  predicate InBox(r: Rectangle, q: Point)
    ensures InBox(r, q) ==> r.p1.x <= r.p2.x && r.p1.y <= r.p2.y
    ensures q == r.p1 || q == r.p2 ==> (InBox(r, q) <==> r.p1.x <= r.p2.x && r.p1.y <= r.p2.y)
  {
    r.p1.x <= q.x <= r.p2.x && r.p1.y <= q.y <= r.p2.y
  }

  /** The capture test: is the start or the end of `seg`, rotated by
      `angle`, inside the rectangle? Nothing is ever inside a rectangle whose
      corners are given the wrong way round. */
  predicate Contains(rect: Rectangle, seg: Segment, angle: real, trig: Trig)
    ensures Contains(rect, seg, angle, trig) ==> rect.p1.x <= rect.p2.x && rect.p1.y <= rect.p2.y
  {
    var start := GetXY(seg.start, angle, trig);
    var end := GetXY(seg.end, angle, trig);
    var startIn := InBox(rect, start);
    var endIn := InBox(rect, end);
    startIn || endIn
  }

  /** The test does not depend on which end of the segment is its start. */
  lemma ContainsSymmetric(rect: Rectangle, seg: Segment, angle: real, trig: Trig)
    ensures Contains(rect, seg, angle, trig) == Contains(rect, Segment(seg.end, seg.start), angle, trig)
  {
  }

  /** The bounds are inclusive: an endpoint landing exactly on either corner
      of a well-formed rectangle captures the segment, and an endpoint landing
      on a corner is enough whatever the other endpoint does. */
  lemma ContainsOnCorner(rect: Rectangle, seg: Segment, angle: real, trig: Trig)
    requires rect.p1.x <= rect.p2.x && rect.p1.y <= rect.p2.y
    requires GetXY(seg.start, angle, trig) in {rect.p1, rect.p2} || GetXY(seg.end, angle, trig) in {rect.p1, rect.p2}
    ensures Contains(rect, seg, angle, trig)
  {
  }

  /** Neither endpoint inside means no capture. */
  lemma ContainsNeedsAnEndpoint(rect: Rectangle, seg: Segment, angle: real, trig: Trig)
    requires !InBox(rect, GetXY(seg.start, angle, trig))
    requires !InBox(rect, GetXY(seg.end, angle, trig))
    ensures !Contains(rect, seg, angle, trig)
  {
  }

  /** The state of the reference clock: its angle and whether the most recent
      tick wrapped. */
  datatype Clock = Clock(angle: int, looped: bool)

  /** One tick of the reference clock. The new state does not depend on the
      old looped flag: it records the most recent tick only. */
  function Advance(c: Clock): (r: Clock)
    ensures r.looped <==> c.angle + AngleDelta >= AngleMax
    ensures 0 <= c.angle < AngleMax ==> 0 <= r.angle < AngleMax
    ensures r.angle % AngleDelta == c.angle % AngleDelta
    ensures (r.angle - c.angle - AngleDelta) % AngleMax == 0
  {
    var a := c.angle + AngleDelta;
    if a >= AngleMax then Clock(a - AngleMax, true) else Clock(a, false)
  }

  /** The clock after `n` ticks. */
  function Ticks(c: Clock, n: nat): Clock
  {
    if n == 0 then c else Advance(Ticks(c, n - 1))
  }

  /** How many of the first `n` ticks from `c` wrapped. */
  function Wraps(c: Clock, n: nat): nat
  {
    if n == 0 then 0 else Wraps(c, n - 1) + (if Ticks(c, n).looped then 1 else 0)
  }

  /** After `n` ticks the angle has advanced by n deltas, less one full turn
      per wrap. */
  lemma {:induction false} TicksAngle(c: Clock, n: nat)
    ensures Ticks(c, n).angle == c.angle + n * AngleDelta - AngleMax * Wraps(c, n)
  {
    ClockConstants();
    if n > 0 {
      TicksAngle(c, n - 1);
      assert n * AngleDelta == (n - 1) * AngleDelta + AngleDelta;
    }
  }

  /** An angle in [0, 360) stays in [0, 360) and keeps its remainder modulo
      the delta, whatever the number of ticks; in particular an angle that
      starts as a multiple of 6 stays one. */
  lemma {:induction false} TicksStayInRange(c: Clock, n: nat)
    requires 0 <= c.angle < AngleMax
    ensures 0 <= Ticks(c, n).angle < AngleMax
    ensures Ticks(c, n).angle % AngleDelta == c.angle % AngleDelta
  {
    if n > 0 {
      TicksStayInRange(c, n - 1);
    }
  }

  /** From any angle in range, a lap of ANGLE_STEPS ticks brings the hand back
      to where it started and wraps exactly once. */
  lemma LapReturns(c: Clock)
    requires 0 <= c.angle < AngleMax
    ensures Ticks(c, AngleSteps).angle == c.angle
    ensures Wraps(c, AngleSteps) == 1
  {
    ClockConstants();
    TicksAngle(c, AngleSteps);
    TicksStayInRange(c, AngleSteps);
    var w := Wraps(c, AngleSteps);
    assert Ticks(c, AngleSteps).angle == c.angle + AngleMax - AngleMax * w;
    assert 0 <= c.angle + AngleMax * (1 - w) < AngleMax;
    assert w == 1;
  }

  /** From a fresh reference, the first 59 ticks move the hand 6 degrees at a
      time without wrapping. */
  lemma {:induction false} TicksFromZero(k: nat)
    requires k < AngleSteps
    ensures Ticks(Clock(0, false), k) == Clock(k * AngleDelta, false)
  {
    ClockConstants();
    if k > 0 {
      TicksFromZero(k - 1);
      assert k * AngleDelta == (k - 1) * AngleDelta + AngleDelta;
    }
  }

  /** From a fresh reference, the 60th tick is the first to report a wrap, and
      it brings the hand back to 0. */
  lemma LapFromZero()
    ensures Ticks(Clock(0, false), AngleSteps) == Clock(0, true)
    ensures forall k :: 0 <= k < AngleSteps ==> !Ticks(Clock(0, false), k).looped
  {
    ClockConstants();
    forall k | 0 <= k < AngleSteps
      ensures !Ticks(Clock(0, false), k).looped
    {
      TicksFromZero(k);
    }
    TicksFromZero(AngleSteps - 1);
  }

  /** The clock hand that every segment is rotated by. */
  class Reference {
    var angle: int
    var looped: bool

    /** A fresh reference points at angle 0 and has not looped. */
    constructor ()
      ensures angle == 0 && !looped
    {
      angle := 0;
      looped := false;
    }

    function Angle(): int
      reads this
    {
      angle
    }

    function Looped(): bool
      reads this
    {
      looped
    }

    ghost function State(): Clock
      reads this
    {
      Clock(angle, looped)
    }

    method Tick()
      modifies this
      ensures State() == Advance(old(State()))
    {
      angle := angle + AngleDelta;
      if angle >= AngleMax {
        angle := angle - AngleMax;
        looped := true;
      } else {
        looped := false;
      }
    }
  }
}
