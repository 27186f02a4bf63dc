/** The detected node marker of the tree scanner: a circle with integer centre
    and radius, its size tier, the overlap test between two circles, and the
    circle fitter that turns a contour's minimum enclosing circle into one. */
module Circles {

  const MAX_RADIUS: int := 20
  const MIN_RADIUS: int := 5
  const MIN_CONTOUR_AREA: real := 2.0

  /** A detected node marker, in pixels. `Circle(x, y, radius)` is also the
      `from_data` factory of the scanner: it stores its three arguments as given. */
  datatype Circle = Circle(x: int, y: int, radius: int)

  /** The size tier of a node. */
  datatype Kind = Small | Notable | Keystone

  /** The error raised when a radius falls outside every tier band. */
  datatype ClassifyError = RadiusOutOfBands(radius: int)

  datatype Result<+T> = Ok(value: T) | Err(error: ClassifyError)

  /** The tier of a circle by its radius; radii outside 1..14 are an error. */
  function KindOf(c: Circle): (r: Result<Kind>)
    ensures r == Ok(Small) <==> 1 <= c.radius <= 7
    ensures r == Ok(Notable) <==> 8 <= c.radius <= 10
    ensures r == Ok(Keystone) <==> 11 <= c.radius <= 14
    ensures r.Err? <==> c.radius < 1 || 14 < c.radius
    ensures r.Err? ==> r.error == RadiusOutOfBands(c.radius)
  {
    if 1 <= c.radius <= 7 then Ok(Small)
    else if 8 <= c.radius <= 10 then Ok(Notable)
    else if 11 <= c.radius <= 14 then Ok(Keystone)
    else Err(RadiusOutOfBands(c.radius))
  }

  /** Squared distance between the two centres. */
  function SquaredDistance(a: Circle, b: Circle): (d: int)
    ensures d >= 0
  {
    (b.x - a.x) * (b.x - a.x) + (b.y - a.y) * (b.y - a.y)
  }

  /** Two circles overlap when the distance between their centres is strictly
      less than the sum of their radii. The square root of the source is
      replaced by comparing squares, which is exact when the sum is positive;
      when it is not, no distance is below it. */
  predicate Overlaps(a: Circle, b: Circle)
  {
    var s := a.radius + b.radius;
    s > 0 && SquaredDistance(a, b) < s * s
  }

  /** The integer test agrees with the Euclidean one of the source: for the true
      distance `d` between the centres, the circles overlap exactly when `d` is
      below the sum of the radii. */
  lemma OverlapsIsDistanceBelowRadii(a: Circle, b: Circle, d: real)
    requires d >= 0.0 && d * d == SquaredDistance(a, b) as real
    ensures Overlaps(a, b) <==> d < (a.radius + b.radius) as real
  {
    var s := (a.radius + b.radius) as real;
    if s > 0.0 {
      assert ((a.radius + b.radius) * (a.radius + b.radius)) as real == s * s;
      if d < s {
        MultiplyStrictlyBelow(d, s, d);
        MultiplyStrictlyBelow(d, s, s);
      } else {
        MultiplyBelow(s, d, s);
        MultiplyBelow(s, d, d);
      }
    }
  }

  lemma MultiplyBelow(u: real, v: real, w: real)
    requires 0.0 <= u <= v && 0.0 <= w
    ensures u * w <= v * w
  {
  }

  lemma MultiplyStrictlyBelow(u: real, v: real, w: real)
    requires 0.0 <= u < v && 0.0 <= w
    ensures u * w <= v * w
    ensures 0.0 < w ==> u * w < v * w
  {
  }

  /** Overlap does not depend on which circle asks. */
  lemma OverlapsSymmetric(a: Circle, b: Circle)
    ensures Overlaps(a, b) == Overlaps(b, a)
  {
    assert SquaredDistance(a, b) == SquaredDistance(b, a);
  }

  /** Overlap is strict: circles whose centres are exactly the sum of the radii
      apart only touch, and do not overlap. */
  lemma TouchingCirclesDoNotOverlap(a: Circle, b: Circle)
    requires SquaredDistance(a, b) == (a.radius + b.radius) * (a.radius + b.radius)
    ensures !Overlaps(a, b)
  {
  }

  /** A circle of positive radius overlaps every circle with the same centre and
      a non-negative radius, in particular itself. */
  lemma ConcentricCirclesOverlap(a: Circle, b: Circle)
    requires a.x == b.x && a.y == b.y
    requires a.radius > 0 && b.radius >= 0
    ensures Overlaps(a, b)
  {
  }

  /** Python's `int()` on a float: truncation toward zero. */
  function Truncate(v: real): (n: int)
    ensures v >= 0.0 ==> 0 <= n && n as real <= v < n as real + 1.0
    ensures v < 0.0 ==> n <= 0 && n as real - 1.0 < v <= n as real
  {
    if v >= 0.0 then v.Floor else -((-v).Floor)
  }

  /** The clamped radius: the raw enclosing radius is bounded above by
      MAX_RADIUS, below by MIN_RADIUS, then truncated to an integer. */
  function ClampRadius(raw: real): (r: int)
    ensures MIN_RADIUS <= r <= MAX_RADIUS
    ensures MIN_RADIUS as real <= raw <= MAX_RADIUS as real ==> r == raw.Floor
    ensures raw < MIN_RADIUS as real ==> r == MIN_RADIUS
    ensures raw >= MAX_RADIUS as real ==> r == MAX_RADIUS
  {
    var capped := if raw < MAX_RADIUS as real then raw else MAX_RADIUS as real;
    var raised := if capped > MIN_RADIUS as real then capped else MIN_RADIUS as real;
    Truncate(raised)
  }

  /** What the contour extractor reports for one external contour: its enclosed
      area and its minimum enclosing circle (centre and radius, as floats). */
  datatype Contour = Contour(area: real, centerX: real, centerY: real, radius: real)

  /** The circle the scanner records for one contour: truncated centre and
      clamped radius. */
  function FitCircle(c: Contour): (r: Circle)
    ensures MIN_RADIUS <= r.radius <= MAX_RADIUS
    ensures c.centerX >= 0.0 ==> r.x as real <= c.centerX < r.x as real + 1.0
    ensures c.centerY >= 0.0 ==> r.y as real <= c.centerY < r.y as real + 1.0
  {
    Circle(Truncate(c.centerX), Truncate(c.centerY), ClampRadius(c.radius))
  }

  /** The contours whose area reaches MIN_CONTOUR_AREA, in their order. */
  function FilterByArea(cs: seq<Contour>): (r: seq<Contour>)
    ensures |r| <= |cs|
    ensures forall c :: c in r ==> c in cs && c.area >= MIN_CONTOUR_AREA
    ensures forall c :: c in cs && c.area >= MIN_CONTOUR_AREA ==> c in r
  {
    if cs == [] then []
    else if cs[0].area >= MIN_CONTOUR_AREA then [cs[0]] + FilterByArea(cs[1..])
    else FilterByArea(cs[1..])
  }

  /** The filter keeps every contour of sufficient area as often as it occurs,
      and drops every other one; a single contour is kept or dropped whole. */
  lemma {:induction false} FilterByAreaCounts(cs: seq<Contour>)
    ensures forall c :: multiset(FilterByArea(cs))[c] == if c.area >= MIN_CONTOUR_AREA then multiset(cs)[c] else 0
    ensures |cs| == 1 ==> FilterByArea(cs) == if cs[0].area >= MIN_CONTOUR_AREA then cs else []
  {
    if cs != [] {
      assert cs == [cs[0]] + cs[1..];
      FilterByAreaCounts(cs[1..]);
    }
  }

  /** The filter keeps the order of the contours: filtering two runs of
      contours one after the other is filtering their concatenation. */
  lemma {:induction false} FilterByAreaAppend(a: seq<Contour>, b: seq<Contour>)
    ensures FilterByArea(a + b) == FilterByArea(a) + FilterByArea(b)
  {
    if a != [] {
      assert (a + b)[1..] == a[1..] + b;
      FilterByAreaAppend(a[1..], b);
    } else {
      assert a + b == b;
    }
  }

  /** The accumulation loop that appends one fitted circle per contour. */
  method FitAll(contours: seq<Contour>) returns (all: seq<Circle>)
    ensures |all| == |contours|
    ensures forall i :: 0 <= i < |all| ==> all[i] == FitCircle(contours[i])
    ensures forall c :: c in all ==> MIN_RADIUS <= c.radius <= MAX_RADIUS
  {
    all := [];
    for i := 0 to |contours|
      invariant |all| == i
      invariant forall j :: 0 <= j < i ==> all[j] == FitCircle(contours[j])
    {
      all := all + [FitCircle(contours[i])];
    }
  }

  /** On clamped circles the only tier failure is a radius of 15 to MAX_RADIUS;
      radii 5..7 are small, and nothing below 5 occurs. */
  lemma ClampedKinds(raw: real, x: int, y: int)
    ensures var c := Circle(x, y, ClampRadius(raw));
      && (KindOf(c).Err? <==> 15 <= c.radius <= MAX_RADIUS)
      && (KindOf(c) == Ok(Small) <==> MIN_RADIUS <= c.radius <= 7)
  {
  }
}
