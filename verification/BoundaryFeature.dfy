/*
 * Discretisation of the primitive solid shapes (circle, oval, square) into
 * one closed, oriented loop of boundary panels.  Sine and cosine are not
 * interpreted: a `Trig` value carries them, so the integer side (counts,
 * sizes, loop topology, zero strengths) and the exact placement of every
 * node in terms of those two functions are what is proved.
 */
module BoundaryFeatures {
  import opened ElementPackets

  /** M_PI as a double. */
  const Pi: real := 3.141592653589793

  const MaxPanels: nat := 10000
  const MinRoundPanels: nat := 5
  const MaxSidePanels: nat := 2500

  /** The trigonometric functions the discretiser calls, left uninterpreted. */
  datatype Trig = Trig(cos: real -> real, sin: real -> real)

  /** The three shape descriptors; `theta` is a rotation in degrees. */
  datatype Feature =
    | SolidCircle(x: real, y: real, diam: real)
    | SolidOval(x: real, y: real, diam: real, dmin: real, theta: real)
    | SolidSquare(x: real, y: real, side: real, theta: real)

  // ---------------------------------------------------------------------
  // Panel counts

  /** The C++ cast `(int)v`: truncation toward zero. */
  function Trunc(v: real): (r: int)
    ensures v >= 0.0 ==> 0 <= r && r as real <= v < r as real + 1.0
    ensures v < 0.0 ==> r <= 0 && r as real - 1.0 < v <= r as real
  {
    if v >= 0.0 then v.Floor else -((-v).Floor)
  }

  lemma TruncMonotone(a: real, b: real)
    requires a <= b
    ensures Trunc(a) <= Trunc(b)
  {
  }

  /** `std::min(hi, std::max(lo, v))`. */
  function Clamp(lo: int, hi: int, v: int): int
    requires lo <= hi
  {
    if v < lo then lo else if v > hi then hi else v
  }

  /** Panels on a circle or an oval of (major) diameter `diam`. */
  function RoundPanelCount(diam: real, ips: real): (n: nat)
    requires ips > 0.0
    ensures MinRoundPanels <= n <= MaxPanels
    ensures MinRoundPanels <= Trunc(diam * Pi / ips) <= MaxPanels ==> n == Trunc(diam * Pi / ips)
    ensures Trunc(diam * Pi / ips) < MinRoundPanels ==> n == MinRoundPanels
    ensures Trunc(diam * Pi / ips) > MaxPanels ==> n == MaxPanels
  {
    Clamp(MinRoundPanels, MaxPanels, Trunc(diam * Pi / ips))
  }

  /** Panels along one side of a square. */
  function SidePanelCount(side: real, ips: real): (m: nat)
    requires ips > 0.0
    ensures 1 <= m <= MaxSidePanels
    ensures 1 <= Trunc(side / ips) <= MaxSidePanels ==> m == Trunc(side / ips)
    ensures Trunc(side / ips) < 1 ==> m == 1
    ensures Trunc(side / ips) > MaxSidePanels ==> m == MaxSidePanels
  {
    Clamp(1, MaxSidePanels, Trunc(side / ips))
  }

  function PanelCount(f: Feature, ips: real): (n: nat)
    requires ips > 0.0
    ensures 4 <= n <= MaxPanels
    ensures f.SolidSquare? ==> n % 4 == 0 && n == 4 * SidePanelCount(f.side, ips)
    ensures !f.SolidSquare? ==> MinRoundPanels <= n && n == RoundPanelCount(f.diam, ips)
  {
    match f
    case SolidCircle(_, _, diam) => RoundPanelCount(diam, ips)
    case SolidOval(_, _, diam, _, _) => RoundPanelCount(diam, ips)
    case SolidSquare(_, _, side, _) => 4 * SidePanelCount(side, ips)
  }

  /** The round count never decreases as diameter over spacing grows. */
  lemma RoundPanelCountMonotone(d1: real, ips1: real, d2: real, ips2: real)
    requires ips1 > 0.0 && ips2 > 0.0
    requires d1 / ips1 <= d2 / ips2
    ensures RoundPanelCount(d1, ips1) <= RoundPanelCount(d2, ips2)
  {
    ScaledRatioMonotone(d1, ips1, d2, ips2);
    RoundPanelCountOrdered(d1, ips1, d2, ips2);
  }

  lemma RoundPanelCountOrdered(d1: real, ips1: real, d2: real, ips2: real)
    requires ips1 > 0.0 && ips2 > 0.0
    requires d1 * Pi / ips1 <= d2 * Pi / ips2
    ensures RoundPanelCount(d1, ips1) <= RoundPanelCount(d2, ips2)
  {
    TruncMonotone(d1 * Pi / ips1, d2 * Pi / ips2);
  }

  lemma ScaledRatioMonotone(d1: real, ips1: real, d2: real, ips2: real)
    requires ips1 > 0.0 && ips2 > 0.0
    requires d1 / ips1 <= d2 / ips2
    ensures d1 * Pi / ips1 <= d2 * Pi / ips2
  {
    var a, b := d1 / ips1, d2 / ips2;
    assert d1 * Pi / ips1 == Pi * a;
    assert d2 * Pi / ips2 == Pi * b;
  }

  /** The square count never decreases as side over spacing grows. */
  lemma SidePanelCountMonotone(s1: real, ips1: real, s2: real, ips2: real)
    requires ips1 > 0.0 && ips2 > 0.0
    requires s1 / ips1 <= s2 / ips2
    ensures SidePanelCount(s1, ips1) <= SidePanelCount(s2, ips2)
  {
    TruncMonotone(s1 / ips1, s2 / ips2);
  }

  // ---------------------------------------------------------------------
  // Loop topology of the index sequence

  /** The node after node `i` on a loop of `n` nodes. */
  function Next(i: nat, n: nat): nat
    requires i < n
  {
    if i + 1 == n then 0 else i + 1
  }

  /** First and second node of segment `i`. */
  function SegStart(idx: seq<int>, i: nat): int
    requires 2 * i < |idx|
  {
    idx[2 * i]
  }

  function SegEnd(idx: seq<int>, i: nat): int
    requires 2 * i + 1 < |idx|
  {
    idx[2 * i + 1]
  }

  /** Segment `i` runs from node `i` to node `i+1`, and the last one back to 0. */
  ghost predicate IsClosedLoop(idx: seq<int>, n: nat) {
    && |idx| == 2 * n
    && forall i :: 0 <= i < n ==> SegStart(idx, i) == i && SegEnd(idx, i) == Next(i, n)
  }

  /** Every index names a node; each segment ends where the next begins; the last ends at 0. */
  lemma ClosedLoopShape(idx: seq<int>, n: nat)
    requires IsClosedLoop(idx, n)
    ensures forall k :: 0 <= k < |idx| ==> 0 <= idx[k] < n
    ensures forall i :: 0 <= i < n ==> SegEnd(idx, i) == SegStart(idx, Next(i, n))
    ensures n > 0 ==> SegEnd(idx, n - 1) == 0
  {
    forall k | 0 <= k < |idx| ensures 0 <= idx[k] < n {
      var i := k / 2;
      if k % 2 == 0 {
        assert SegStart(idx, i) == idx[k];
      } else {
        assert SegEnd(idx, i) == idx[k];
      }
    }
    if n > 0 {
      assert SegEnd(idx, n - 1) == Next(n - 1, n);
    }
  }

  /** The node reached from node 0 after following `k` segments. */
  function Walk(idx: seq<int>, n: nat, k: nat): (p: int)
    requires n > 0 && IsClosedLoop(idx, n)
    ensures 0 <= p < n
  {
    if k == 0 then 0 else SegEnd(idx, Walk(idx, n, k - 1))
  }

  /** Following the segments from node 0 meets node `k` after `k` steps. */
  lemma {:induction false} WalkVisitsInOrder(idx: seq<int>, n: nat, k: nat)
    requires n > 0 && IsClosedLoop(idx, n)
    requires k < n
    ensures Walk(idx, n, k) == k
  {
    if k > 0 {
      WalkVisitsInOrder(idx, n, k - 1);
      assert SegEnd(idx, k - 1) == Next(k - 1, n);
    }
  }

  /** One loop: every node is visited once before the walk returns to node 0 after `n` steps. */
  lemma SingleLoop(idx: seq<int>, n: nat)
    requires n > 0 && IsClosedLoop(idx, n)
    ensures Walk(idx, n, n) == 0
    ensures forall k :: 0 < k < n ==> Walk(idx, n, k) != 0
  {
    WalkVisitsInOrder(idx, n, n - 1);
    assert SegEnd(idx, n - 1) == Next(n - 1, n);
    forall k | 0 < k < n ensures Walk(idx, n, k) != 0 {
      WalkVisitsInOrder(idx, n, k);
    }
  }

  /** What the index loop of every shape has written after `i` of `n` passes. */
  ghost predicate SegmentsUpTo(idx: seq<int>, val: seq<real>, i: nat, n: nat) {
    && |idx| == 2 * n && |val| == n && i <= n
    && forall j :: 0 <= j < i ==> idx[2 * j] == j && idx[2 * j + 1] == j + 1 && val[j] == 0.0
  }

  /** Rewriting the last second index to 0 closes the loop. */
  lemma PatchClosesLoop(idx: seq<int>, val: seq<real>, n: nat)
    requires n > 0 && SegmentsUpTo(idx, val, n, n)
    ensures IsClosedLoop(idx[2 * n - 1 := 0], n)
    ensures forall j :: 0 <= j < n ==> val[j] == 0.0
  {
    var patched := idx[2 * n - 1 := 0];
    forall i | 0 <= i < n ensures SegStart(patched, i) == i && SegEnd(patched, i) == Next(i, n) {
      assert 2 * i != 2 * n - 1;
    }
  }

  // ---------------------------------------------------------------------
  // Node placement

  /** Angle of node `j` of `n`, in radians. */
  function Angle(j: nat, n: nat): real
    requires n > 0
  {
    2.0 * Pi * (j as real) / (n as real)
  }

  /** Node `j` of a circle, walked clockwise from the +x axis. */
  function CirclePoint(cx: real, cy: real, diam: real, n: nat, j: nat, trig: Trig): Point
    requires n > 0
  {
    Point(cx + 0.5 * diam * trig.cos(Angle(j, n)), cy - 0.5 * diam * trig.sin(Angle(j, n)))
  }

  /** Rotation of a local offset `p` by the angle whose cosine and sine are `ct`, `st`, about (cx, cy). */
  function Rotate(cx: real, cy: real, p: Point, ct: real, st: real): Point {
    Point(cx + p.x * ct - p.y * st, cy + p.x * st + p.y * ct)
  }

  /** Node `j` of an oval: the clockwise ellipse offset, rotated. */
  function OvalPoint(cx: real, cy: real, diam: real, dmin: real, ct: real, st: real,
                     n: nat, j: nat, trig: Trig): Point
    requires n > 0
  {
    var dx := 0.5 * diam * trig.cos(Angle(j, n));
    var dy := -0.5 * dmin * trig.sin(Angle(j, n));
    Rotate(cx, cy, Point(dx, dy), ct, st)
  }

  /** Node `j` of edge run `r` (0 left, 1 top, 2 right, 3 bottom) of an unrotated square, `m` nodes per run. */
  function SquareLocal(side: real, m: nat, r: nat, j: nat): Point
    requires m > 0 && r < 4
  {
    var t := (j as real) / (m as real);
    if r == 0 then Point(side * -0.5, side * (-0.5 + t))
    else if r == 1 then Point(side * (-0.5 + t), side * 0.5)
    else if r == 2 then Point(side * 0.5, side * (0.5 - t))
    else Point(side * (0.5 - t), side * -0.5)
  }

  function DegreesToRadians(theta: real): real { Pi * theta / 180.0 }

  // ---------------------------------------------------------------------
  // Properties of the placement

  /** With cos^2 + sin^2 = 1 at its angle, a circle node lies on the circle. */
  lemma CirclePointOnCircle(cx: real, cy: real, diam: real, n: nat, j: nat, trig: Trig)
    requires n > 0
    requires var a := Angle(j, n); trig.cos(a) * trig.cos(a) + trig.sin(a) * trig.sin(a) == 1.0
    ensures var p := CirclePoint(cx, cy, diam, n, j, trig);
            (p.x - cx) * (p.x - cx) + (p.y - cy) * (p.y - cy) == 0.25 * diam * diam
  {
    var a := Angle(j, n);
    var c, s := trig.cos(a), trig.sin(a);
    var p := CirclePoint(cx, cy, diam, n, j, trig);
    assert p.x - cx == 0.5 * diam * c;
    assert p.y - cy == -(0.5 * diam * s);
    calc {
      (p.x - cx) * (p.x - cx) + (p.y - cy) * (p.y - cy);
      (0.5 * diam * c) * (0.5 * diam * c) + (0.5 * diam * s) * (0.5 * diam * s);
      0.25 * diam * diam * (c * c + s * s);
      0.25 * diam * diam;
    }
  }

  /** An oval with equal diameters and no rotation places its nodes where the circle does. */
  lemma RoundOvalIsCircle(cx: real, cy: real, diam: real, n: nat, j: nat, trig: Trig)
    requires n > 0
    ensures OvalPoint(cx, cy, diam, diam, 1.0, 0.0, n, j, trig) == CirclePoint(cx, cy, diam, n, j, trig)
  {
  }

  /** Each run starts at a corner: (-s/2,-s/2), (-s/2,+s/2), (+s/2,+s/2), (+s/2,-s/2). */
  lemma SquareRunsStartAtCorners(side: real, m: nat)
    requires m > 0
    ensures SquareLocal(side, m, 0, 0) == Point(-0.5 * side, -0.5 * side)
    ensures SquareLocal(side, m, 1, 0) == Point(-0.5 * side, 0.5 * side)
    ensures SquareLocal(side, m, 2, 0) == Point(0.5 * side, 0.5 * side)
    ensures SquareLocal(side, m, 3, 0) == Point(0.5 * side, -0.5 * side)
  {
  }

  /** Consecutive nodes inside a run of an unrotated square are one step `side/m` apart along
      one axis, walked clockwise: up the left side, right along the top, down the right side,
      left along the bottom. */
  lemma SquareStepWithinRun(side: real, m: nat, j: nat)
    requires m > 0 && j + 1 < m
    ensures var h := side / (m as real);
            && SquareLocal(side, m, 0, j + 1).x == SquareLocal(side, m, 0, j).x
            && SquareLocal(side, m, 0, j + 1).y - SquareLocal(side, m, 0, j).y == h
            && SquareLocal(side, m, 1, j + 1).y == SquareLocal(side, m, 1, j).y
            && SquareLocal(side, m, 1, j + 1).x - SquareLocal(side, m, 1, j).x == h
            && SquareLocal(side, m, 2, j + 1).x == SquareLocal(side, m, 2, j).x
            && SquareLocal(side, m, 2, j).y - SquareLocal(side, m, 2, j + 1).y == h
            && SquareLocal(side, m, 3, j + 1).y == SquareLocal(side, m, 3, j).y
            && SquareLocal(side, m, 3, j).x - SquareLocal(side, m, 3, j + 1).x == h
  {
    FractionStep(side, m, j);
  }

  /** The last node of each run is one step `side/m` short of the next run's first node,
      and the last node of the bottom run is one step short of node 0. */
  lemma SquareStepAcrossCorner(side: real, m: nat)
    requires m > 0
    ensures var h := side / (m as real);
            && SquareLocal(side, m, 1, 0).x == SquareLocal(side, m, 0, m - 1).x
            && SquareLocal(side, m, 1, 0).y - SquareLocal(side, m, 0, m - 1).y == h
            && SquareLocal(side, m, 2, 0).y == SquareLocal(side, m, 1, m - 1).y
            && SquareLocal(side, m, 2, 0).x - SquareLocal(side, m, 1, m - 1).x == h
            && SquareLocal(side, m, 3, 0).x == SquareLocal(side, m, 2, m - 1).x
            && SquareLocal(side, m, 2, m - 1).y - SquareLocal(side, m, 3, 0).y == h
            && SquareLocal(side, m, 0, 0).y == SquareLocal(side, m, 3, m - 1).y
            && SquareLocal(side, m, 3, m - 1).x - SquareLocal(side, m, 0, 0).x == h
  {
    LastFraction(side, m);
  }

  /** The last node of a run sits one step short of the run's far corner. */
  lemma LastFraction(side: real, m: nat)
    requires m > 0
    ensures side * ((m - 1) as real / m as real) == side - side / (m as real)
  {
    var mr := m as real;
    assert (m - 1) as real / mr == 1.0 - 1.0 / mr;
    assert side * (1.0 / mr) == side / mr;
  }

  /** Advancing one node along a run moves the fraction `j/m` by `1/m`, i.e. the point by `side/m`. */
  lemma FractionStep(side: real, m: nat, j: nat)
    requires m > 0
    ensures side * ((j + 1) as real / m as real) - side * (j as real / m as real) == side / (m as real)
  {
    var mr := m as real;
    assert (j + 1) as real / mr == j as real / mr + 1.0 / mr;
    assert side * (1.0 / mr) == side / mr;
  }

  // ---------------------------------------------------------------------
  // The discretisers

  /** SolidCircle::init_elements. */
  method InitCircle(f: Feature, ips: real, trig: Trig) returns (p: Packet)
    requires f.SolidCircle? && ips > 0.0
    ensures var n := RoundPanelCount(f.diam, ips);
            && |p.x| == 2 * n && |p.val| == n
            && IsClosedLoop(p.idx, n)
            && (forall j :: 0 <= j < n ==> p.val[j] == 0.0)
            && (forall j :: 0 <= j < n ==> PointAt(p.x, j) == CirclePoint(f.x, f.y, f.diam, n, j, trig))
            && p.nelem == 0 && p.ndim == 0
  {
    var n := RoundPanelCount(f.diam, ips);
    var x := seq(2 * n, _ => 0.0);
    var idx := seq(2 * n, _ => 0);
    var val := seq(n, _ => 0.0);
    var i := 0;
    while i < n
      invariant 0 <= i <= n && |x| == 2 * n && |idx| == 2 * n && |val| == n
      invariant forall j :: 0 <= j < i ==> idx[2 * j] == j
      invariant forall j :: 0 <= j < i ==> idx[2 * j + 1] == j + 1
      invariant forall j :: 0 <= j < i ==> val[j] == 0.0
      invariant forall j :: 0 <= j < i ==> x[2 * j] == CirclePoint(f.x, f.y, f.diam, n, j, trig).x
      invariant forall j :: 0 <= j < i ==> x[2 * j + 1] == CirclePoint(f.x, f.y, f.diam, n, j, trig).y
    {
      var node := CirclePoint(f.x, f.y, f.diam, n, i, trig);
      x := x[2 * i := node.x];
      x := x[2 * i + 1 := node.y];
      idx := idx[2 * i := i];
      idx := idx[2 * i + 1 := i + 1];
      val := val[i := 0.0];
      i := i + 1;
    }
    assert SegmentsUpTo(idx, val, n, n);
    PatchClosesLoop(idx, val, n);
    idx := idx[2 * n - 1 := 0];
    p := Packet(x, idx, val, 0, 0);
    forall j | 0 <= j < n ensures PointAt(p.x, j) == CirclePoint(f.x, f.y, f.diam, n, j, trig) {
      assert p.x[2 * j] == x[2 * j] && p.x[2 * j + 1] == x[2 * j + 1];
    }
  }

  /** SolidOval::init_elements: the circle's count on the major diameter, nodes on the rotated ellipse. */
  method InitOval(f: Feature, ips: real, trig: Trig) returns (p: Packet)
    requires f.SolidOval? && ips > 0.0
    ensures var n := RoundPanelCount(f.diam, ips);
            var ct, st := trig.cos(DegreesToRadians(f.theta)), trig.sin(DegreesToRadians(f.theta));
            && |p.x| == 2 * n && |p.val| == n
            && IsClosedLoop(p.idx, n)
            && (forall j :: 0 <= j < n ==> p.val[j] == 0.0)
            && (forall j :: 0 <= j < n ==> PointAt(p.x, j) == OvalPoint(f.x, f.y, f.diam, f.dmin, ct, st, n, j, trig))
            && p.nelem == 0 && p.ndim == 0
  {
    var n := RoundPanelCount(f.diam, ips);
    var st := trig.sin(DegreesToRadians(f.theta));
    var ct := trig.cos(DegreesToRadians(f.theta));
    var x := seq(2 * n, _ => 0.0);
    var idx := seq(2 * n, _ => 0);
    var val := seq(n, _ => 0.0);
    var i := 0;
    while i < n
      invariant 0 <= i <= n && |x| == 2 * n && |idx| == 2 * n && |val| == n
      invariant forall j :: 0 <= j < i ==> idx[2 * j] == j
      invariant forall j :: 0 <= j < i ==> idx[2 * j + 1] == j + 1
      invariant forall j :: 0 <= j < i ==> val[j] == 0.0
      invariant forall j :: 0 <= j < i ==> x[2 * j] == OvalPoint(f.x, f.y, f.diam, f.dmin, ct, st, n, j, trig).x
      invariant forall j :: 0 <= j < i ==> x[2 * j + 1] == OvalPoint(f.x, f.y, f.diam, f.dmin, ct, st, n, j, trig).y
    {
      var node := OvalPoint(f.x, f.y, f.diam, f.dmin, ct, st, n, i, trig);
      x := x[2 * i := node.x];
      x := x[2 * i + 1 := node.y];
      idx := idx[2 * i := i];
      idx := idx[2 * i + 1 := i + 1];
      val := val[i := 0.0];
      i := i + 1;
    }
    assert SegmentsUpTo(idx, val, n, n);
    PatchClosesLoop(idx, val, n);
    idx := idx[2 * n - 1 := 0];
    p := Packet(x, idx, val, 0, 0);
    forall j | 0 <= j < n
      ensures PointAt(p.x, j) == OvalPoint(f.x, f.y, f.diam, f.dmin, ct, st, n, j, trig)
    {
      assert p.x[2 * j] == x[2 * j] && p.x[2 * j + 1] == x[2 * j + 1];
    }
  }

  /** Node `j` of run `r` of a square, after rotation about its centre. */
  function SquareNode(f: Feature, m: nat, r: nat, j: nat, trig: Trig): Point
    requires f.SolidSquare? && m > 0 && r < 4
  {
    Rotate(f.x, f.y, SquareLocal(f.side, m, r, j),
           trig.cos(DegreesToRadians(f.theta)), trig.sin(DegreesToRadians(f.theta)))
  }

  /** The interleaved coordinates of the first `k` nodes of side `r` of a square with `m`
      nodes per side, rotated by the angle whose cosine and sine are `ct`, `st`. */
  function SideCoords(f: Feature, m: nat, r: nat, ct: real, st: real, k: nat): (c: seq<real>)
    requires f.SolidSquare? && m > 0 && r < 4
    ensures |c| == 2 * k
    ensures forall j :: 0 <= j < k ==> c[2 * j] == Rotate(f.x, f.y, SquareLocal(f.side, m, r, j), ct, st).x
    ensures forall j :: 0 <= j < k ==> c[2 * j + 1] == Rotate(f.x, f.y, SquareLocal(f.side, m, r, j), ct, st).y
  {
    if k == 0 then []
    else
      var node := Rotate(f.x, f.y, SquareLocal(f.side, m, r, k - 1), ct, st);
      SideCoords(f, m, r, ct, st, k - 1) + [node.x, node.y]
  }

  /** All `8 * m` coordinates of a square: the four sides in walking order. */
  function SquareCoords(f: Feature, m: nat, trig: Trig): seq<real>
    requires f.SolidSquare? && m > 0
  {
    var ct, st := trig.cos(DegreesToRadians(f.theta)), trig.sin(DegreesToRadians(f.theta));
    SideCoords(f, m, 0, ct, st, m) + SideCoords(f, m, 1, ct, st, m)
      + SideCoords(f, m, 2, ct, st, m) + SideCoords(f, m, 3, ct, st, m)
  }

  /** Node `r * m + j` of a square's coordinates is node `j` of side `r`. */
  lemma SquareCoordsNodes(f: Feature, m: nat, trig: Trig)
    requires f.SolidSquare? && m > 0
    ensures |SquareCoords(f, m, trig)| == 8 * m
    ensures forall j :: 0 <= j < m ==> PointAt(SquareCoords(f, m, trig), j) == SquareNode(f, m, 0, j, trig)
    ensures forall j :: 0 <= j < m ==> PointAt(SquareCoords(f, m, trig), m + j) == SquareNode(f, m, 1, j, trig)
    ensures forall j :: 0 <= j < m ==> PointAt(SquareCoords(f, m, trig), 2 * m + j) == SquareNode(f, m, 2, j, trig)
    ensures forall j :: 0 <= j < m ==> PointAt(SquareCoords(f, m, trig), 3 * m + j) == SquareNode(f, m, 3, j, trig)
  {
    var ct, st := trig.cos(DegreesToRadians(f.theta)), trig.sin(DegreesToRadians(f.theta));
    var s0, s1, s2, s3 := SideCoords(f, m, 0, ct, st, m), SideCoords(f, m, 1, ct, st, m),
                          SideCoords(f, m, 2, ct, st, m), SideCoords(f, m, 3, ct, st, m);
    var all := SquareCoords(f, m, trig);
    assert all == s0 + s1 + s2 + s3;
    forall j | 0 <= j < m
      ensures all[2 * j] == s0[2 * j] && all[2 * j + 1] == s0[2 * j + 1]
      ensures all[2 * (m + j)] == s1[2 * j] && all[2 * (m + j) + 1] == s1[2 * j + 1]
      ensures all[2 * (2 * m + j)] == s2[2 * j] && all[2 * (2 * m + j) + 1] == s2[2 * j + 1]
      ensures all[2 * (3 * m + j)] == s3[2 * j] && all[2 * (3 * m + j) + 1] == s3[2 * j + 1]
    {
    }
  }

  /** One of the four loops of SolidSquare::init_elements: the `m` nodes of side `r`,
      rotated and written through the cursor `icnt`, which ends `2 * m` further on.
      What lies before the cursor is kept. */
  method PlaceSide(x: seq<real>, icnt: nat, f: Feature, m: nat, r: nat, ct: real, st: real)
    returns (x': seq<real>, icnt': nat)
    requires f.SolidSquare? && m > 0 && r < 4 && icnt + 2 * m <= |x|
    ensures |x'| == |x| && icnt' == icnt + 2 * m
    ensures x'[..icnt'] == x[..icnt] + SideCoords(f, m, r, ct, st, m)
  {
    x', icnt' := x, icnt;
    var i := 0;
    while i < m
      invariant |x'| == |x| && 0 <= i <= m && icnt' == icnt + 2 * i
      invariant x'[..icnt'] == x[..icnt] + SideCoords(f, m, r, ct, st, i)
    {
      var node := Rotate(f.x, f.y, SquareLocal(f.side, m, r, i), ct, st);
      ghost var done := x'[..icnt'];
      x' := x'[icnt' := node.x];
      icnt' := icnt' + 1;
      x' := x'[icnt' := node.y];
      icnt' := icnt' + 1;
      assert x'[..icnt'] == done + [node.x, node.y];
      i := i + 1;
    }
  }

  /** The index loop of SolidSquare::init_elements and its correction: panel `i` runs from
      node `i` to node `i + 1`, the last one back to node 0, and every value is zero. */
  method ChainSegments(n: nat) returns (idx: seq<int>, val: seq<real>)
    requires n > 0
    ensures |idx| == 2 * n && |val| == n && IsClosedLoop(idx, n)
    ensures forall j :: 0 <= j < n ==> val[j] == 0.0
  {
    idx := seq(2 * n, _ => 0);
    val := seq(n, _ => 0.0);
    var i := 0;
    while i < n
      invariant 0 <= i <= n && |idx| == 2 * n && |val| == n
      invariant forall j :: 0 <= j < i ==> idx[2 * j] == j
      invariant forall j :: 0 <= j < i ==> idx[2 * j + 1] == j + 1
      invariant forall j :: 0 <= j < i ==> val[j] == 0.0
    {
      idx := idx[2 * i := i];
      idx := idx[2 * i + 1 := i + 1];
      val := val[i := 0.0];
      i := i + 1;
    }
    assert SegmentsUpTo(idx, val, n, n);
    PatchClosesLoop(idx, val, n);
    idx := idx[2 * n - 1 := 0];
  }

  /** SolidSquare::init_elements: four runs of `n/4` nodes, written through a running cursor. */
  method InitSquare(f: Feature, ips: real, trig: Trig) returns (p: Packet)
    requires f.SolidSquare? && ips > 0.0
    ensures var m := SidePanelCount(f.side, ips);
            var n := 4 * m;
            && p.x == SquareCoords(f, m, trig)
            && |p.x| == 2 * n && |p.val| == n
            && IsClosedLoop(p.idx, n)
            && (forall j :: 0 <= j < n ==> p.val[j] == 0.0)
            && p.nelem == 0 && p.ndim == 0
  {
    var m := SidePanelCount(f.side, ips);
    var n := 4 * m;
    var x := seq(2 * n, _ => 0.0);
    var st := trig.sin(DegreesToRadians(f.theta));
    var ct := trig.cos(DegreesToRadians(f.theta));
    var icnt := 0;
    x, icnt := PlaceSide(x, icnt, f, m, 0, ct, st);
    x, icnt := PlaceSide(x, icnt, f, m, 1, ct, st);
    x, icnt := PlaceSide(x, icnt, f, m, 2, ct, st);
    x, icnt := PlaceSide(x, icnt, f, m, 3, ct, st);
    assert x == x[..icnt];
    var idx, val := ChainSegments(n);
    p := Packet(x, idx, val, 0, 0);
  }

  /** BoundaryFeature::init_elements, dispatched on the shape: a closed loop of
      `PanelCount(f, ips)` zero-strength panels over as many nodes. */
  method InitElements(f: Feature, ips: real, trig: Trig) returns (p: Packet)
    requires ips > 0.0
    ensures var n := PanelCount(f, ips);
            && |p.x| == 2 * n && |p.val| == n
            && IsClosedLoop(p.idx, n)
            && (forall j :: 0 <= j < n ==> p.val[j] == 0.0)
            && p.nelem == 0 && p.ndim == 0
  {
    match f
    case SolidCircle(_, _, _) => p := InitCircle(f, ips, trig);
    case SolidOval(_, _, _, _, _) => p := InitOval(f, ips, trig);
    case SolidSquare(_, _, _, _) => p := InitSquare(f, ips, trig);
  }
}
