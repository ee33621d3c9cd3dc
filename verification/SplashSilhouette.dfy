/**
 The splash silhouettes of the watercolour theme, over exact reals: control points wander around an
 inset rectangle, and the outline curves through their midpoints.
 */
module SplashSilhouette {

  datatype Point = Point(x: real, y: real)

  datatype Options = Options(horizontal: nat, vertical: nat, insetX: real, insetY: real, depthX: real, depthY: real)

  const CORNER_PAD: real := 5.0

  predicate InUnit(v: real) { 0.0 <= v <= 100.0 }

  /** Outside the 0-100 box a clip path paints past the element. */
  predicate InBox(p: Point) { InUnit(p.x) && InUnit(p.y) }

  /** Fingers stay inside the inset, corners stay inside the box. */
  predicate AxisFits(inset: real, depth: real)
  {
    0.0 <= depth && 0.7 * depth <= inset && inset + depth <= 100.0
  }

  predicate Fits(o: Options)
  {
    o.horizontal >= 2 && o.vertical >= 2 && AxisFits(o.insetX, o.depthX) && AxisFits(o.insetY, o.depthY)
  }

  /** What `mulberry32` promises about each of its values. */
  ghost predicate RandomStream(random: nat -> real)
  {
    forall n :: 0.0 <= random(n) < 1.0
  }

  // ----- Positions along an edge -----

  function Step(count: nat): real
    requires count >= 2
  {
    (100.0 - 2.0 * CORNER_PAD) / (count - 1) as real
  }

  function Clamp(v: real): real
  {
    var atLeast := if v < 1.0 then 1.0 else v;
    if atLeast > 99.0 then 99.0 else atLeast
  }

  /** `spread`: evenly spaced, jittered by over a quarter step to either side, and clamped. */
  function Spread(index: nat, count: nat, r: real): real
    requires count >= 2
  {
    Clamp(CORNER_PAD + Share(index, Step(count)) + Shift(r, Step(count)))
  }

  function Share(index: nat, step: real): real
  {
    index as real * step
  }

  function Shift(r: real, step: real): real
  {
    (r - 0.5) * step * 0.55
  }

  /** Each position of an edge lies before the next one, whatever the random values. */
  ghost predicate KeepsOrder(count: nat)
    requires count >= 2
  {
    forall i: nat, j: nat, r, s :: j == i + 1 < count && 0.0 <= r < 1.0 && 0.0 <= s < 1.0 ==>
      Spread(i, count, r) < Spread(j, count, s)
  }

  /** Neither the jitter nor the clamp can make two neighbours meet or change places. */
  lemma SpreadIncreases(count: nat)
    requires count >= 2
    ensures KeepsOrder(count)
  {
    hide Spread;
    forall i: nat, j: nat, r, s | j == i + 1 < count && 0.0 <= r < 1.0 && 0.0 <= s < 1.0
      ensures Spread(i, count, r) < Spread(j, count, s)
    {
      NextIsFurther(i, count, r, s);
    }
  }

  lemma NextIsFurther(i: nat, count: nat, r: real, s: real)
    requires i + 1 < count && 0.0 <= r < 1.0 && 0.0 <= s < 1.0
    ensures Spread(i, count, r) < Spread(i + 1, count, s)
  {
    var step := Step(count);
    StepsFill(i, count);
    Jitter(step, r);
    Jitter(step, s);
    hide Step;
    hide Share;
    hide Shift;
    ClampKeepsOrder(Share(i, step), step, Shift(r, step), Shift(s, step));
  }

  lemma StepsFill(index: nat, count: nat)
    requires index + 1 < count
    ensures Step(count) > 0.0
    ensures 0.0 <= Share(index, Step(count)) <= 90.0 - Step(count)
    ensures Share(index + 1, Step(count)) == Share(index, Step(count)) + Step(count)
  {
    var step := Step(count);
    assert (count - 1) as real * step == 90.0;
    Scale(index as real, (count - 2) as real, step);
    assert (count - 2) as real == (count - 1) as real - 1.0;
    assert ((count - 1) as real - 1.0) * step == (count - 1) as real * step - step;
  }

  lemma Jitter(step: real, r: real)
    requires step > 0.0 && 0.0 <= r < 1.0
    ensures -0.275 * step <= Shift(r, step) <= 0.275 * step
  {
    Scale(r, 1.0, step);
    assert (r - 0.5) * step == r * step - 0.5 * step;
  }

  lemma ClampKeepsOrder(left: real, step: real, j: real, k: real)
    requires step > 0.0 && 0.0 <= left <= 90.0 - step
    requires -0.275 * step <= j <= 0.275 * step && -0.275 * step <= k <= 0.275 * step
    ensures Clamp(CORNER_PAD + left + j) < Clamp(CORNER_PAD + (left + step) + k)
  {
  }

  lemma Scale(a: real, b: real, scale: real)
    requires 0.0 <= a <= b && 0.0 <= scale
    ensures 0.0 <= a * scale <= b * scale
  {
  }

  // ----- Wandering off the base line -----

  /** `wander`: positive runs inward, negative outward; the second draw depends on the first. */
  function Wander(roll: real, r: real, depth: real, inset: real): real
  {
    if roll < 0.3 then -inset * (0.55 + 0.43 * r)
    else if roll < 0.62 then depth * (0.4 + 0.6 * r)
    else (r * 2.0 - 1.0) * depth * 0.35
  }

  /** A wander in terms of two products, each between zero and its limit. */
  lemma WanderParts(roll: real, r: real, depth: real, inset: real)
    ensures Wander(roll, r, depth, inset) ==
            if roll < 0.3 then -0.55 * inset - 0.43 * (r * inset)
            else if roll < 0.62 then 0.4 * depth + 0.6 * (r * depth)
            else 0.7 * (r * depth) - 0.35 * depth
  {
    assert -inset * (0.55 + 0.43 * r) == -0.55 * inset - 0.43 * (r * inset);
    assert depth * (0.4 + 0.6 * r) == 0.4 * depth + 0.6 * (r * depth);
    assert (r * 2.0 - 1.0) * depth == 2.0 * (r * depth) - depth;
  }

  lemma WanderStays(roll: real, r: real, depth: real, inset: real)
    requires AxisFits(inset, depth) && 0.0 <= r < 1.0
    ensures InUnit(inset + Wander(roll, r, depth, inset)) && InUnit(100.0 - inset - Wander(roll, r, depth, inset))
  {
    Scale(r, 1.0, inset);
    Scale(r, 1.0, depth);
    WanderParts(roll, r, depth, inset);
    OffsetStays(roll, Wander(roll, r, depth, inset), r * inset, r * depth, depth, inset);
  }

  lemma OffsetStays(roll: real, w: real, ri: real, rd: real, depth: real, inset: real)
    requires AxisFits(inset, depth) && 0.0 <= ri <= inset && 0.0 <= rd <= depth
    requires w == if roll < 0.3 then -0.55 * inset - 0.43 * ri
                  else if roll < 0.62 then 0.4 * depth + 0.6 * rd
                  else 0.7 * rd - 0.35 * depth
    ensures InUnit(inset + w) && InUnit(100.0 - inset - w)
  {
  }

  /** A corner's offset, to either side of the base line. */
  function CornerOffset(r: real, depth: real): real
  {
    (r * 2.0 - 1.0) * depth * 0.7
  }

  lemma CornerStays(r: real, depth: real, inset: real)
    requires AxisFits(inset, depth) && 0.0 <= r < 1.0
    ensures InUnit(inset + CornerOffset(r, depth)) && InUnit(100.0 - inset - CornerOffset(r, depth))
  {
    Scale(r, 1.0, depth);
    assert CornerOffset(r, depth) == 1.4 * (r * depth) - 0.7 * depth by {
      assert (r * 2.0 - 1.0) * depth == 2.0 * (r * depth) - depth;
    }
    hide CornerOffset;
  }

  // ----- The control points -----

  /** The four edges, clockwise from the top. */
  datatype Side = Top | Right | Bottom | Left

  function Place(side: Side, along: real, off: real, o: Options): Point
  {
    match side
    case Top => Point(along, o.insetY + off)
    case Right => Point(100.0 - o.insetX - off, along)
    case Bottom => Point(along, 100.0 - o.insetY - off)
    case Left => Point(o.insetX + off, along)
  }

  function Along(side: Side, p: Point): real
  {
    if side.Top? || side.Bottom? then p.x else p.y
  }

  /** Clockwise, so left to right on top and right to left at the bottom. */
  predicate Before(side: Side, a: real, b: real)
  {
    if side.Top? || side.Right? then a < b else b < a
  }

  ghost predicate Monotone(side: Side, points: seq<Point>)
  {
    forall i :: 0 <= i < |points| - 1 ==> Before(side, Along(side, points[i]), Along(side, points[i + 1]))
  }

  /** One edge; every point draws a position, a roll and the value the roll calls for, its x before its y. */
  method Edge(random: nat -> real, start: nat, side: Side, o: Options) returns (points: seq<Point>, drawn: nat)
    requires RandomStream(random) && Fits(o)
    ensures |points| == if side.Top? || side.Bottom? then o.horizontal else o.vertical
    ensures forall i :: 0 <= i < |points| ==> InBox(points[i])
    ensures Monotone(side, points)
    ensures drawn == start + 3 * |points|
  {
    var count := if side.Top? || side.Bottom? then o.horizontal else o.vertical;
    var depth := if side.Top? || side.Bottom? then o.depthY else o.depthX;
    var inset := if side.Top? || side.Bottom? then o.insetY else o.insetX;
    SpreadIncreases(count);
    points, drawn := [], start;
    ghost var r := 0.0;
    for i := 0 to count
      invariant |points| == i && drawn == start + 3 * i
      invariant forall k :: 0 <= k < i ==> InBox(points[k])
      invariant Monotone(side, points)
      invariant 0.0 <= r < 1.0
      invariant i > 0 ==>
        Along(side, points[i - 1]) == Spread(if side.Top? || side.Right? then i - 1 else count - i, count, r)
    {
      hide Spread;
      hide Wander;
      var index := if side.Top? || side.Right? then i else count - 1 - i;
      var first := if side.Top? || side.Bottom? then drawn else drawn + 2;
      var second := if side.Top? || side.Bottom? then drawn + 1 else drawn;
      var along := Spread(index, count, random(first));
      var off := Wander(random(second), random(second + 1), depth, inset);
      WanderStays(random(second), random(second + 1), depth, inset);
      SpreadStays(index, count, random(first));
      r := random(first);
      points := points + [Place(side, along, off, o)];
      drawn := drawn + 3;
    }
  }

  lemma SpreadStays(index: nat, count: nat, r: real)
    requires count >= 2
    ensures InUnit(Spread(index, count, r))
  {
  }

  /** A corner draws its two offsets. */
  method Corner(random: nat -> real, start: nat, right: bool, bottom: bool, o: Options) returns (p: Point)
    requires RandomStream(random) && Fits(o)
    ensures InBox(p)
  {
    var dx, dy := CornerOffset(random(start), o.depthX), CornerOffset(random(start + 1), o.depthY);
    CornerStays(random(start), o.depthX, o.insetX);
    CornerStays(random(start + 1), o.depthY, o.insetY);
    p := Point(if right then 100.0 - o.insetX - dx else o.insetX + dx,
               if bottom then 100.0 - o.insetY - dy else o.insetY + dy);
  }

  /** `splashRectControls`: corner and edge in turn, clockwise from the top left. */
  method SplashRectControls(random: nat -> real, o: Options) returns (points: seq<Point>)
    requires RandomStream(random) && Fits(o)
    ensures |points| == 4 + 2 * o.horizontal + 2 * o.vertical
    ensures forall i :: 0 <= i < |points| ==> InBox(points[i])
    ensures Monotone(Top, points[1..1 + o.horizontal])
    ensures Monotone(Right, points[2 + o.horizontal..2 + o.horizontal + o.vertical])
    ensures Monotone(Bottom, points[3 + o.horizontal + o.vertical..3 + 2 * o.horizontal + o.vertical])
    ensures Monotone(Left, points[4 + 2 * o.horizontal + o.vertical..])
  {
    hide Fits;
    hide InBox;
    hide Monotone;
    var topLeft := Corner(random, 0, false, false, o);
    var top, a := Edge(random, 2, Top, o);
    var topRight := Corner(random, a, true, false, o);
    var right, b := Edge(random, a + 2, Right, o);
    var bottomRight := Corner(random, b, true, true, o);
    var bottom, c := Edge(random, b + 2, Bottom, o);
    var bottomLeft := Corner(random, c, false, true, o);
    var left, d := Edge(random, c + 2, Left, o);
    points := [topLeft] + top + [topRight] + right + [bottomRight] + bottom + [bottomLeft] + left;
    var h, v := o.horizontal, o.vertical;
    assert points[1..1 + h] == top;
    assert points[2 + h..2 + h + v] == right;
    assert points[3 + h + v..3 + 2 * h + v] == bottom;
    assert points[4 + 2 * h + v..] == left;
  }

  // ----- The outline -----

  datatype Curve = Curve(to: Point, control: Point)

  function Midpoint(p: Point, q: Point): Point
  {
    Point((p.x + q.x) / 2.0, (p.y + q.y) / 2.0)
  }

  function Part(share: real, a: real): real
  {
    share * a
  }

  function Mix(a: real, b: real, t: real): real
  {
    Part(1.0 - t, a) + Part(t, b)
  }

  /** A point of the quadratic curve from `from` to `c.to` around `c.control`. */
  function CurvePoint(from: Point, c: Curve, t: real): Point
  {
    Point(Mix(Mix(from.x, c.control.x, t), Mix(c.control.x, c.to.x, t), t),
          Mix(Mix(from.y, c.control.y, t), Mix(c.control.y, c.to.y, t), t))
  }

  lemma MixStays(a: real, b: real, t: real)
    requires InUnit(a) && InUnit(b) && 0.0 <= t <= 1.0
    ensures InUnit(Mix(a, b, t))
  {
    hide Part;
    PartStays(a, 1.0 - t);
    PartStays(b, t);
  }

  lemma PartStays(a: real, share: real)
    requires InUnit(a) && 0.0 <= share
    ensures 0.0 <= Part(share, a) <= 100.0 * share
  {
    assert share * (100.0 - a) >= 0.0;
    assert share * (100.0 - a) == 100.0 * share - share * a;
  }

  /** A quadratic curve stays in the box its three points are in. */
  lemma CurveStays(from: Point, c: Curve, t: real)
    requires InBox(from) && InBox(c.to) && InBox(c.control) && 0.0 <= t <= 1.0
    ensures InBox(CurvePoint(from, c, t))
  {
    hide Mix;
    MixStays(from.x, c.control.x, t);
    MixStays(c.control.x, c.to.x, t);
    MixStays(from.y, c.control.y, t);
    MixStays(c.control.y, c.to.y, t);
    MixStays(Mix(from.x, c.control.x, t), Mix(c.control.x, c.to.x, t), t);
    MixStays(Mix(from.y, c.control.y, t), Mix(c.control.y, c.to.y, t), t);
  }

  /** Where curve `i` starts: the end of the curve before it. */
  function StartOf(start: Point, curves: seq<Curve>, i: nat): Point
    requires i < |curves|
  {
    if i == 0 then start else curves[i - 1].to
  }

  /** `(i + 1) % n`. */
  function Next(i: nat, n: nat): (k: nat)
    requires i < n
    ensures k < n
  {
    if i + 1 < n then i + 1 else 0
  }

  /** A closed outline: curve `i` wraps control `i + 1`, from the midpoint before it to the midpoint after it. */
  ghost predicate Outline(controls: seq<Point>, start: Point, curves: seq<Curve>)
  {
    && controls != [] && |curves| == |controls| && curves[|curves| - 1].to == start
    && forall i :: 0 <= i < |curves| ==> CurveAt(controls, start, curves, i)
  }

  ghost predicate CurveAt(controls: seq<Point>, start: Point, curves: seq<Curve>, i: nat)
    requires i < |curves| == |controls|
  {
    && curves[i].control == controls[Next(i, |controls|)]
    && StartOf(start, curves, i) == Midpoint(controls[i], curves[i].control)
  }

  /** `Math.round(value * 100) / 100`, which rounds halves up. */
  function Rounded(v: real): real
  {
    (v * 100.0 + 0.5).Floor as real / 100.0
  }

  function RoundedPoint(p: Point): Point
  {
    Point(Rounded(p.x), Rounded(p.y))
  }

  function RoundedCurves(curves: seq<Curve>): (r: seq<Curve>)
    ensures |r| == |curves|
    ensures forall i :: 0 <= i < |r| ==> r[i] == Curve(RoundedPoint(curves[i].to), RoundedPoint(curves[i].control))
  {
    seq(|curves|, i requires 0 <= i < |curves| => Curve(RoundedPoint(curves[i].to), RoundedPoint(curves[i].control)))
  }

  /** What is printed: an outline with every coordinate rounded to hundredths. */
  ghost predicate PrintedOutline(controls: seq<Point>, start: Point, curves: seq<Curve>)
  {
    exists s, cs :: Outline(controls, s, cs) && start == RoundedPoint(s) && curves == RoundedCurves(cs)
  }

  /** `silhouetteFromControls`; no controls is an error. */
  method SilhouetteFromControls(controls: seq<Point>) returns (ok: bool, start: Point, curves: seq<Curve>)
    ensures ok <==> controls != []
    ensures ok ==> PrintedOutline(controls, start, curves)
  {
    hide Midpoint;
    start, curves := Point(0.0, 0.0), [];
    if controls == [] {
      return false, start, curves;
    }
    var n := |controls|;
    var midpoints := seq(n, i requires 0 <= i < n => Midpoint(controls[i], controls[Next(i, n)]));
    start := midpoints[0];
    curves := seq(n, i requires 0 <= i < n => Curve(midpoints[Next(i, n)], controls[Next(i, n)]));
    assert forall i :: 0 <= i < n ==> CurveAt(controls, start, curves, i);
    return true, RoundedPoint(start), RoundedCurves(curves);
  }

  /** Rounding moves a coordinate by half a hundredth at most, and never out of the box. */
  lemma RoundingStays(v: real)
    ensures v - 0.005 < Rounded(v) <= v + 0.005
    ensures InUnit(v) ==> InUnit(Rounded(v))
  {
    var n := (v * 100.0 + 0.5).Floor;
    assert n as real <= v * 100.0 + 0.5 < n as real + 1.0;
    if InUnit(v) {
      assert 0 <= n <= 100 * 100;
    }
  }

  /** Every point of the outline of controls inside the box is inside the box. */
  lemma OutlineStays(controls: seq<Point>, start: Point, curves: seq<Curve>, i: nat, t: real)
    requires Outline(controls, start, curves) && i < |curves| && 0.0 <= t <= 1.0
    requires forall k :: 0 <= k < |controls| ==> InBox(controls[k])
    ensures InBox(CurvePoint(StartOf(start, curves, i), curves[i], t))
  {
    hide InBox;
    CurveEndsInside(controls, start, curves, i);
    assert CurveAt(controls, start, curves, i);
    assert InBox(curves[i].control);
    CurveStays(StartOf(start, curves, i), curves[i], t);
  }

  lemma CurveEndsInside(controls: seq<Point>, start: Point, curves: seq<Curve>, i: nat)
    requires Outline(controls, start, curves) && i < |curves|
    requires forall k :: 0 <= k < |controls| ==> InBox(controls[k])
    ensures InBox(curves[i].to) && InBox(StartOf(start, curves, i))
  {
    hide InBox;
    hide Midpoint;
    var k := Next(i, |curves|);
    assert CurveAt(controls, start, curves, i) && CurveAt(controls, start, curves, k);
    assert StartOf(start, curves, k) == curves[i].to;
    MidpointStays(controls[i], curves[i].control);
    MidpointStays(controls[k], curves[k].control);
  }

  /** The printed outline closes, and rounding does not push any of its points out of the box. */
  lemma PrintedOutlineStays(controls: seq<Point>, start: Point, curves: seq<Curve>, i: nat, t: real)
    requires PrintedOutline(controls, start, curves) && i < |curves| && 0.0 <= t <= 1.0
    requires forall k :: 0 <= k < |controls| ==> InBox(controls[k])
    ensures curves[|curves| - 1].to == start
    ensures InBox(CurvePoint(StartOf(start, curves, i), curves[i], t))
  {
    var s: Point, cs: seq<Curve> :| Outline(controls, s, cs) && start == RoundedPoint(s) && curves == RoundedCurves(cs);
    CurveEndsInside(controls, s, cs, i);
    assert CurveAt(controls, s, cs, i);
    var from, c := StartOf(s, cs, i), cs[i];
    assert StartOf(start, curves, i) == RoundedPoint(from);
    RoundedStays(from);
    RoundedStays(c.to);
    RoundedStays(c.control);
    CurveStays(RoundedPoint(from), curves[i], t);
  }

  lemma RoundedStays(p: Point)
    requires InBox(p)
    ensures InBox(RoundedPoint(p))
  {
    RoundingStays(p.x);
    RoundingStays(p.y);
  }

  lemma MidpointStays(p: Point, q: Point)
    requires InBox(p) && InBox(q)
    ensures InBox(Midpoint(p, q))
  {
  }
}
