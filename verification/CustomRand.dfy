/** The flow-size distribution: a piecewise-linear function, its inverse, its mean and its integral, over exact reals. */
module CustomRand {
  import opened Options

  /** A value and the percentage of flows up to it. */
  datatype Point = Point(x: real, y: real)

  predicate TestCdf(cdf: seq<Point>)
    requires cdf != []
  {
    && cdf[0].y == 0.0 && cdf[|cdf| - 1].y == 100.0
    && forall i :: 1 <= i < |cdf| ==> cdf[i - 1].y < cdf[i].y && cdf[i - 1].x < cdf[i].x
  }

  /** An accepted distribution. */
  ghost predicate Accepted(cdf: seq<Point>) {
    |cdf| > 1 && TestCdf(cdf)
  }

  // ----- one segment

  function Slope(a: real, b: real): real
    requires b != 0.0
  {
    a / b
  }

  function ValueIn(p: Point, q: Point, y: real): real
    requires p.y != q.y
  {
    p.x + Slope(q.x - p.x, q.y - p.y) * (y - p.y)
  }

  function PercentileIn(p: Point, q: Point, x: real): real
    requires p.x != q.x
  {
    p.y + Slope(q.y - p.y, q.x - p.x) * (x - p.x)
  }

  function AreaIn(p: Point, q: Point, y: real): real
    requires p.y != q.y
  {
    0.5 * (p.x + ValueIn(p, q, y)) * (y - p.y) / 100.0
  }

  ghost predicate Rises(p: Point, q: Point) {
    p.x < q.x && p.y < q.y
  }

  lemma SlopeFacts(a: real, b: real)
    requires a > 0.0 && b > 0.0
    ensures Slope(a, b) > 0.0 && Slope(a, b) * b == a && Slope(a, b) * Slope(b, a) == 1.0
  {
  }

  lemma Scale(s: real, u: real, v: real)
    requires s > 0.0 && u < v
    ensures s * u < s * v
  {
  }

  lemma SegmentEnds(p: Point, q: Point)
    requires Rises(p, q)
    ensures ValueIn(p, q, p.y) == p.x && ValueIn(p, q, q.y) == q.x
    ensures PercentileIn(p, q, p.x) == p.y && PercentileIn(p, q, q.x) == q.y
  {
    ValueEnds(p, q);
    ValueEnds(Point(p.y, p.x), Point(q.y, q.x));
    hide Slope;
  }

  lemma ValueEnds(p: Point, q: Point)
    requires Rises(p, q)
    ensures ValueIn(p, q, p.y) == p.x && ValueIn(p, q, q.y) == q.x
  {
    SlopeFacts(q.x - p.x, q.y - p.y);
    hide Slope;
    var s := Slope(q.x - p.x, q.y - p.y);
    assert ValueIn(p, q, p.y) == p.x + s * 0.0;
    assert ValueIn(p, q, q.y) == p.x + s * (q.y - p.y);
  }

  lemma SegmentRises(p: Point, q: Point, y: real, y': real)
    requires Rises(p, q) && y < y'
    ensures ValueIn(p, q, y) < ValueIn(p, q, y')
  {
    SlopeFacts(q.x - p.x, q.y - p.y);
    hide Slope;
    Scale(Slope(q.x - p.x, q.y - p.y), y - p.y, y' - p.y);
  }

  lemma SegmentRises2(p: Point, q: Point, x: real, x': real)
    requires Rises(p, q) && x < x'
    ensures PercentileIn(p, q, x) < PercentileIn(p, q, x')
  {
    SegmentRises(Point(p.y, p.x), Point(q.y, q.x), x, x');
    hide Slope;
  }

  lemma Inverse(s: real, t: real, d: real)
    requires t * s == 1.0
    ensures t * (s * d) == d
  {
    assert t * (s * d) == (t * s) * d;
  }

  lemma SegmentInverse(p: Point, q: Point, y: real)
    requires Rises(p, q)
    ensures PercentileIn(p, q, ValueIn(p, q, y)) == y
  {
    var dx, dy := q.x - p.x, q.y - p.y;
    SlopeFacts(dy, dx);
    hide Slope;
    Inverse(Slope(dx, dy), Slope(dy, dx), y - p.y);
    assert ValueIn(p, q, y) - p.x == Slope(dx, dy) * (y - p.y);
  }

  lemma SegmentInverse2(p: Point, q: Point, x: real)
    requires Rises(p, q)
    ensures ValueIn(p, q, PercentileIn(p, q, x)) == x
  {
    SegmentInverse(Point(p.y, p.x), Point(q.y, q.x), x);
    hide Slope;
  }

  // ----- the whole function

  /** `y` lies in the segment that ends at point `i`. */
  ghost predicate InSegment(cdf: seq<Point>, i: nat, y: real)
    requires Accepted(cdf)
  {
    1 <= i < |cdf| && cdf[i - 1].y <= y <= cdf[i].y
  }

  function ValueFrom(cdf: seq<Point>, i: nat, y: real): Option<real>
    requires 1 <= i && forall k :: 1 <= k < |cdf| ==> cdf[k - 1].y != cdf[k].y
    decreases |cdf| - i
  {
    if i >= |cdf| then None
    else if y <= cdf[i].y then Some(ValueIn(cdf[i - 1], cdf[i], y))
    else ValueFrom(cdf, i + 1, y)
  }

  function PercentileFrom(cdf: seq<Point>, i: nat, x: real): Option<real>
    requires 1 <= i && forall k :: 1 <= k < |cdf| ==> cdf[k - 1].x != cdf[k].x
    decreases |cdf| - i
  {
    if i >= |cdf| then None
    else if x <= cdf[i].x then Some(PercentileIn(cdf[i - 1], cdf[i], x))
    else PercentileFrom(cdf, i + 1, x)
  }

  function Value(cdf: seq<Point>, y: real): Option<real>
    requires cdf != [] && TestCdf(cdf)
  {
    ValueFrom(cdf, 1, y)
  }

  /** -1 marks a value outside the distribution. */
  function Percentile(cdf: seq<Point>, x: real): Option<real>
    requires cdf != [] && TestCdf(cdf)
  {
    if x < 0.0 || x > cdf[|cdf| - 1].x then Some(-1.0) else PercentileFrom(cdf, 1, x)
  }

  function Trapeze(p: Point, q: Point): real {
    0.5 * (q.x + p.x) * (q.y - p.y) / 100.0
  }

  lemma TrapezeIs(p: Point, q: Point)
    ensures Trapeze(p, q) == 0.5 * (q.x + p.x) * (q.y - p.y) / 100.0
  {
  }

  /** The trapezoids of the first `i` points. */
  function AreaTo(cdf: seq<Point>, i: nat): real
    requires i < |cdf|
  {
    if i == 0 then 0.0
    else AreaTo(cdf, i - 1) + Trapeze(cdf[i - 1], cdf[i])
  }

  function IntegralFrom(cdf: seq<Point>, i: nat, y: real): real
    requires 1 <= i && forall k :: 1 <= k < |cdf| ==> cdf[k - 1].y != cdf[k].y
    decreases |cdf| - i
  {
    if i >= |cdf| then 0.0
    else if y <= cdf[i].y then AreaIn(cdf[i - 1], cdf[i], y)
    else Trapeze(cdf[i - 1], cdf[i]) + IntegralFrom(cdf, i + 1, y)
  }

  function IntegralY(cdf: seq<Point>, y: real): real
    requires cdf != [] && TestCdf(cdf)
  {
    IntegralFrom(cdf, 1, y)
  }

  function Avg(cdf: seq<Point>, n: nat): real
    requires n < |cdf|
  {
    if n == 0 then 0.0 else Avg(cdf, n - 1) + (cdf[n].x + cdf[n - 1].x) / 2.0 * (cdf[n].y - cdf[n - 1].y)
  }

  /** On a segment value and percentage are in proportion. */
  lemma OnTheLine(p: Point, q: Point, y: real)
    requires p.y != q.y
    ensures (ValueIn(p, q, y) - p.x) * (q.y - p.y) == (y - p.y) * (q.x - p.x)
  {
    var s := Slope(q.x - p.x, q.y - p.y);
    assert s * (q.y - p.y) == q.x - p.x;
    assert (s * (y - p.y)) * (q.y - p.y) == (s * (q.y - p.y)) * (y - p.y);
  }

  /** Past the last percentage there is no value, and values outside the distribution are marked. */
  lemma {:induction false} NoValueBeyond(cdf: seq<Point>, i: nat, y: real)
    requires Accepted(cdf) && 1 <= i <= |cdf| && y > 100.0
    ensures ValueFrom(cdf, i, y) == None
    decreases |cdf| - i
  {
    if i < |cdf| {
      Increasing(cdf, i, |cdf| - 1);
      NoValueBeyond(cdf, i + 1, y);
    }
  }

  lemma PercentileOutside(cdf: seq<Point>, x: real)
    requires Accepted(cdf) && (x < 0.0 || x > cdf[|cdf| - 1].x)
    ensures Percentile(cdf, x) == Some(-1.0)
  {
  }

  class Distribution {
    var cdf: seq<Point>

    ghost predicate Valid()
      reads this
    {
      Accepted(cdf)
    }

    /** Accepts a distribution or leaves the old one. */
    method SetCdf(newCdf: seq<Point>) returns (ok: bool)
      requires newCdf != []
      modifies this
      ensures ok <==> TestCdf(newCdf)
      ensures cdf == if ok then newCdf else old(cdf)
      ensures ok ==> Valid()
    {
      ok := CheckCdf(newCdf);
      if ok {
        cdf := newCdf;
      }
    }

    static method CheckCdf(cdf: seq<Point>) returns (ok: bool)
      requires cdf != []
      ensures ok <==> cdf[0].y == 0.0 && cdf[|cdf| - 1].y == 100.0
                      && forall i :: 1 <= i < |cdf| ==> cdf[i - 1].y < cdf[i].y && cdf[i - 1].x < cdf[i].x
    {
      if cdf[0].y != 0.0 { return false; }
      if cdf[|cdf| - 1].y != 100.0 { return false; }
      for i := 1 to |cdf|
        invariant forall k :: 1 <= k < i ==> cdf[k - 1].y < cdf[k].y && cdf[k - 1].x < cdf[k].x
      {
        if cdf[i].y <= cdf[i - 1].y || cdf[i].x <= cdf[i - 1].x { return false; }
      }
      return true;
    }

    method GetAvg() returns (avg: real)
      requires Valid()
      ensures avg == Avg(cdf, |cdf| - 1) / 100.0
    {
      var s := 0.0;
      var last := cdf[0];
      for i := 1 to |cdf|
        invariant s == Avg(cdf, i - 1) && last == cdf[i - 1]
      {
        var c := cdf[i];
        s := s + (c.x + last.x) / 2.0 * (c.y - last.y);
        last := c;
      }
      avg := s / 100.0;
    }

    method GetPercentileFromValue(x: real) returns (y: Option<real>)
      requires Valid()
      ensures y == Percentile(cdf, x)
    {
      if x < 0.0 || x > cdf[|cdf| - 1].x { return Some(-1.0); }
      for i := 1 to |cdf|
        invariant PercentileFrom(cdf, 1, x) == PercentileFrom(cdf, i, x)
      {
        if x <= cdf[i].x { return Some(PercentileIn(cdf[i - 1], cdf[i], x)); }
      }
      return None;
    }

    method GetValueFromPercentile(y: real) returns (x: Option<real>)
      requires Valid()
      ensures x == Value(cdf, y)
    {
      for i := 1 to |cdf|
        invariant ValueFrom(cdf, 1, y) == ValueFrom(cdf, i, y)
      {
        if y <= cdf[i].y { return Some(ValueIn(cdf[i - 1], cdf[i], y)); }
      }
      return None;
    }

    method GetIntegralY(y: real) returns (s: real)
      requires Valid()
      ensures s == IntegralY(cdf, y)
    {
      hide Trapeze, AreaIn;
      s := 0.0;
      for i := 1 to |cdf|
        invariant IntegralFrom(cdf, 1, y) == s + IntegralFrom(cdf, i, y)
      {
        if y <= cdf[i].y {
          s := s + AreaIn(cdf[i - 1], cdf[i], y);
          return;
        } else {
          var area := 0.5 * (cdf[i].x + cdf[i - 1].x) * (cdf[i].y - cdf[i - 1].y) / 100.0;
          TrapezeIs(cdf[i - 1], cdf[i]);
          s := s + area;
        }
      }
    }
  }

  // ----- lookups find the right segment

  lemma {:induction false} Increasing(cdf: seq<Point>, i: nat, j: nat)
    requires Accepted(cdf) && i <= j < |cdf|
    ensures cdf[i].x <= cdf[j].x && cdf[i].y <= cdf[j].y
    ensures i < j ==> cdf[i].x < cdf[j].x && cdf[i].y < cdf[j].y
    decreases j - i
  {
    if i < j { Increasing(cdf, i, j - 1); }
  }

  lemma {:induction false} FindSegment(cdf: seq<Point>, y: real) returns (i: nat)
    requires Accepted(cdf) && 0.0 <= y <= 100.0
    ensures InSegment(cdf, i, y) && (i == 1 || cdf[i - 1].y < y)
  {
    i := 1;
    while y > cdf[i].y
      invariant 1 <= i < |cdf| && cdf[i - 1].y <= y && (i == 1 || cdf[i - 1].y < y)
      decreases |cdf| - i
    {
      i := i + 1;
    }
  }

  /** The lookup gives the line of any segment the percentage is in, also at a common end of two. */
  lemma {:induction false} ValueInSegment(cdf: seq<Point>, k: nat, i: nat, y: real)
    requires Accepted(cdf) && 1 <= k <= i && InSegment(cdf, i, y)
    ensures ValueFrom(cdf, k, y) == Some(ValueIn(cdf[i - 1], cdf[i], y))
    decreases i - k
  {
    hide ValueIn, PercentileIn;
    if k < i {
      if y <= cdf[k].y {
        Increasing(cdf, k, i - 1);
        assert k == i - 1 && y == cdf[k].y;
        SegmentEnds(cdf[k - 1], cdf[k]);
        SegmentEnds(cdf[i - 1], cdf[i]);
      } else {
        ValueInSegment(cdf, k + 1, i, y);
      }
    }
  }

  lemma {:induction false} PercentileInSegment(cdf: seq<Point>, k: nat, i: nat, x: real)
    requires Accepted(cdf) && 1 <= k <= i < |cdf| && cdf[i - 1].x <= x <= cdf[i].x
    ensures PercentileFrom(cdf, k, x) == Some(PercentileIn(cdf[i - 1], cdf[i], x))
    decreases i - k
  {
    hide ValueIn, PercentileIn;
    if k < i {
      if x <= cdf[k].x {
        Increasing(cdf, k, i - 1);
        assert k == i - 1 && x == cdf[k].x;
        SegmentEnds(cdf[k - 1], cdf[k]);
        SegmentEnds(cdf[i - 1], cdf[i]);
      } else {
        PercentileInSegment(cdf, k + 1, i, x);
      }
    }
  }

  lemma SegmentRange(cdf: seq<Point>, i: nat, y: real)
    requires Accepted(cdf) && InSegment(cdf, i, y)
    ensures cdf[i - 1].x <= ValueIn(cdf[i - 1], cdf[i], y) <= cdf[i].x
  {
    hide ValueIn, PercentileIn;
    SegmentEnds(cdf[i - 1], cdf[i]);
    if cdf[i - 1].y < y { SegmentRises(cdf[i - 1], cdf[i], cdf[i - 1].y, y); }
    if y < cdf[i].y { SegmentRises(cdf[i - 1], cdf[i], y, cdf[i].y); }
  }

  /** Percentages 0..100 map into the range of values, and back to themselves. */
  lemma PercentileOfValue(cdf: seq<Point>, y: real)
    requires Accepted(cdf) && cdf[0].x >= 0.0 && 0.0 <= y <= 100.0
    ensures var v := Value(cdf, y);
      v.Some? && cdf[0].x <= v.value <= cdf[|cdf| - 1].x && Percentile(cdf, v.value) == Some(y)
  {
    hide ValueIn, PercentileIn;
    var i := FindSegment(cdf, y);
    ValueInSegment(cdf, 1, i, y);
    SegmentRange(cdf, i, y);
    Increasing(cdf, 0, i - 1);
    Increasing(cdf, i, |cdf| - 1);
    var x := ValueIn(cdf[i - 1], cdf[i], y);
    PercentileInSegment(cdf, 1, i, x);
    SegmentInverse(cdf[i - 1], cdf[i], y);
  }

  lemma {:induction false} FindValueSegment(cdf: seq<Point>, x: real) returns (i: nat)
    requires Accepted(cdf) && cdf[0].x <= x <= cdf[|cdf| - 1].x
    ensures 1 <= i < |cdf| && cdf[i - 1].x <= x <= cdf[i].x
  {
    i := 1;
    while x > cdf[i].x
      invariant 1 <= i < |cdf| && cdf[i - 1].x <= x
      decreases |cdf| - i
    {
      i := i + 1;
    }
  }

  /** Values of the distribution map to percentages 0..100, and back to themselves. */
  lemma ValueOfPercentile(cdf: seq<Point>, x: real)
    requires Accepted(cdf) && 0.0 <= cdf[0].x <= x <= cdf[|cdf| - 1].x
    ensures var y := Percentile(cdf, x);
      y.Some? && 0.0 <= y.value <= 100.0 && Value(cdf, y.value) == Some(x)
  {
    hide ValueIn, PercentileIn;
    var i := FindValueSegment(cdf, x);
    PercentileInSegment(cdf, 1, i, x);
    var p, q := cdf[i - 1], cdf[i];
    var y := PercentileIn(p, q, x);
    SegmentEnds(p, q);
    if p.x < x { SegmentRises2(p, q, p.x, x); }
    if x < q.x { SegmentRises2(p, q, x, q.x); }
    Increasing(cdf, 0, i - 1);
    Increasing(cdf, i, |cdf| - 1);
    ValueInSegment(cdf, 1, i, y);
    SegmentInverse2(p, q, x);
  }

  /** Larger percentages have larger values. */
  lemma ValueRises(cdf: seq<Point>, y: real, y': real)
    requires Accepted(cdf) && 0.0 <= y < y' <= 100.0
    ensures Value(cdf, y).Some? && Value(cdf, y').Some? && Value(cdf, y).value < Value(cdf, y').value
  {
    hide ValueIn, PercentileIn;
    var i := FindSegment(cdf, y);
    var j := FindSegment(cdf, y');
    ValueInSegment(cdf, 1, i, y);
    ValueInSegment(cdf, 1, j, y');
    if i == j {
      SegmentRises(cdf[i - 1], cdf[i], y, y');
    } else {
      if j < i { Increasing(cdf, j, i - 1); }
      SegmentRange(cdf, i, y);
      Increasing(cdf, i, j - 1);
      SegmentEnds(cdf[j - 1], cdf[j]);
      SegmentRises(cdf[j - 1], cdf[j], cdf[j - 1].y, y');
    }
  }

  /** ... and larger values larger percentages. */
  lemma PercentileRises(cdf: seq<Point>, x: real, x': real)
    requires Accepted(cdf) && 0.0 <= cdf[0].x <= x < x' <= cdf[|cdf| - 1].x
    ensures Percentile(cdf, x).Some? && Percentile(cdf, x').Some? && Percentile(cdf, x).value < Percentile(cdf, x').value
  {
    ValueOfPercentile(cdf, x);
    ValueOfPercentile(cdf, x');
    var y, y' := Percentile(cdf, x).value, Percentile(cdf, x').value;
    if y' < y { ValueRises(cdf, y', y); }
  }

  // ----- the integral

  lemma AreaEnds(p: Point, q: Point)
    requires Rises(p, q)
    ensures AreaIn(p, q, p.y) == 0.0
    ensures AreaIn(p, q, q.y) == Trapeze(p, q)
  {
    SegmentEnds(p, q);
  }

  lemma {:induction false} IntegralInSegment(cdf: seq<Point>, k: nat, i: nat, y: real)
    requires Accepted(cdf) && 1 <= k <= i && InSegment(cdf, i, y)
    ensures IntegralFrom(cdf, k, y) == AreaTo(cdf, i - 1) - AreaTo(cdf, k - 1) + AreaIn(cdf[i - 1], cdf[i], y)
    decreases i - k
  {
    hide ValueIn, AreaIn, Trapeze;
    if k < i {
      if y <= cdf[k].y {
        Increasing(cdf, k, i - 1);
        assert k == i - 1 && y == cdf[k].y;
        AreaEnds(cdf[k - 1], cdf[k]);
        AreaEnds(cdf[i - 1], cdf[i]);
      } else {
        IntegralInSegment(cdf, k + 1, i, y);
      }
    }
  }

  lemma {:induction false} AreaIsAvg(cdf: seq<Point>, n: nat)
    requires n < |cdf|
    ensures AreaTo(cdf, n) == Avg(cdf, n) / 100.0
  {
    if n > 0 { AreaIsAvg(cdf, n - 1); }
  }

  /** The integral over all percentages is the mean. */
  lemma IntegralIsMean(cdf: seq<Point>)
    requires Accepted(cdf)
    ensures IntegralY(cdf, 100.0) == Avg(cdf, |cdf| - 1) / 100.0
  {
    hide ValueIn, AreaIn;
    var n := |cdf| - 1;
    IntegralInSegment(cdf, 1, n, 100.0);
    AreaEnds(cdf[n - 1], cdf[n]);
    AreaIsAvg(cdf, n);
  }

  /** What `d` percent of the flows contribute at size `v`. */
  function Share(d: real, v: real): real {
    d * v / 100.0
  }

  /** Within a segment the integral grows by a trapezoid. */
  lemma Trapezoid(p: Point, q: Point, a: real, b: real)
    requires Rises(p, q)
    ensures AreaIn(p, q, b) - AreaIn(p, q, a) == Share(b - a, 0.5 * (ValueIn(p, q, a) + ValueIn(p, q, b)))
  {
    var s, u, v := Slope(q.x - p.x, q.y - p.y), a - p.y, b - p.y;
    hide Slope;
    TrapezoidAlgebra(p.x, s, u, v);
  }

  lemma TrapezoidAlgebra(x: real, s: real, u: real, v: real)
    ensures (x + (x + s * v)) * v - (x + (x + s * u)) * u == ((x + s * u) + (x + s * v)) * (v - u)
  {
    assert (s * v) * u == (s * u) * v;
  }

  lemma MeanBetween(x: real, y: real, d: real)
    requires x <= y && d >= 0.0
    ensures Share(d, x) <= Share(d, 0.5 * (x + y)) <= Share(d, y)
  {
    assert (y - x) * d >= 0.0;
  }

  lemma {:induction false} IntegralBounds(cdf: seq<Point>, i: nat, j: nat, a: real, b: real)
    requires Accepted(cdf) && i <= j && InSegment(cdf, i, a) && InSegment(cdf, j, b) && a <= b
    ensures var va, vb := ValueIn(cdf[i - 1], cdf[i], a), ValueIn(cdf[j - 1], cdf[j], b);
      && va <= vb
      && Share(b - a, va) <= IntegralY(cdf, b) - IntegralY(cdf, a) <= Share(b - a, vb)
    decreases j - i
  {
    if i == j {
      SameSegmentBounds(cdf, i, a, b);
    } else {
      var m := cdf[i].y;
      Increasing(cdf, i, j - 1);
      SameSegmentBounds(cdf, i, a, m);
      IntegralBounds(cdf, i + 1, j, m, b);
      SegmentEnds(cdf[i - 1], cdf[i]);
      SegmentEnds(cdf[i], cdf[i + 1]);
      hide *;
      JoinBounds(a, m, b, ValueIn(cdf[i - 1], cdf[i], a), cdf[i].x, ValueIn(cdf[j - 1], cdf[j], b));
    }
  }

  lemma SameSegmentBounds(cdf: seq<Point>, i: nat, a: real, b: real)
    requires Accepted(cdf) && InSegment(cdf, i, a) && InSegment(cdf, i, b) && a <= b
    ensures var va, vb := ValueIn(cdf[i - 1], cdf[i], a), ValueIn(cdf[i - 1], cdf[i], b);
      && va <= vb
      && Share(b - a, va) <= IntegralY(cdf, b) - IntegralY(cdf, a) <= Share(b - a, vb)
  {
    var p, q := cdf[i - 1], cdf[i];
    hide AreaTo, AreaIn, ValueIn, IntegralFrom, Share;
    IntegralInSegment(cdf, 1, i, a);
    IntegralInSegment(cdf, 1, i, b);
    if a < b { SegmentRises(p, q, a, b); }
    Trapezoid(p, q, a, b);
    MeanBetween(ValueIn(p, q, a), ValueIn(p, q, b), b - a);
  }

  lemma JoinBounds(a: real, m: real, b: real, x: real, y: real, z: real)
    requires a <= m <= b && x <= y <= z
    ensures Share(b - a, x) <= Share(m - a, x) + Share(b - m, y)
    ensures Share(m - a, y) + Share(b - m, z) <= Share(b - a, z)
  {
    assert (b - m) * (y - x) >= 0.0 && (m - a) * (z - y) >= 0.0;
  }

  /** Over any range of percentages the integral lies between the range's width times its least and its
      greatest value. */
  lemma IntegralMonotone(cdf: seq<Point>, a: real, b: real)
    requires Accepted(cdf) && 0.0 <= a <= b <= 100.0
    ensures Value(cdf, a).Some? && Value(cdf, b).Some?
    ensures Share(b - a, Value(cdf, a).value) <= IntegralY(cdf, b) - IntegralY(cdf, a) <= Share(b - a, Value(cdf, b).value)
  {
    hide ValueIn, IntegralY, Share;
    var i := FindSegment(cdf, a);
    var j := FindSegment(cdf, b);
    if j < i { Increasing(cdf, j, i - 1); }
    ValueInSegment(cdf, 1, i, a);
    ValueInSegment(cdf, 1, j, b);
    IntegralBounds(cdf, i, j, a, b);
  }
}
