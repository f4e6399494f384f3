/** The four-bar linkage simulator and its fitness scorer.

    The crank (length `a`) turns through the admissible crank angles theta, sampled on
    the grid theta = k / 100; at each sample the loop-closure equation is solved for
    the output angle psi and the coupler angle phi, and the coupler point is traced.
    A path is scored against the flat target y = 0.7 over x in [-1, 1]; lower is better.

    The trigonometric functions and the square root are not given numerically: they
    are passed in as a `Trig` value, and `Lawful` states the range facts that the
    lemmas rely on. Python's `ZeroDivisionError` is the `ZeroDivisionError` result. */
module Linkage {

  /** `math.pi`. */
  const Pi: real := 3.141592653589793
  /** The worst fitness, also the y of the failure sentinel. */
  const Worst: real := 1e100
  /** The target's value off [-1, 1]. */
  const OffTarget: real := 1e99
  /** The target's value on [-1, 1]. */
  const OnTarget: real := 0.7

  type Point = (real, real)

  /** The path returned for a linkage that cannot be assembled at some sample. */
  const Sentinel: seq<Point> := [(0.0, Worst)]

  /** The math functions the simulator calls. */
  datatype Trig = Trig(
    acos: real -> real,
    atan2: (real, real) -> real,
    cos: real -> real,
    sin: real -> real,
    sqrt: real -> real)

  /** Range facts of the real functions behind `Trig`. */
  ghost predicate Lawful(t: Trig)
  {
    && (forall x :: -1.0 <= x <= 1.0 ==> 0.0 <= t.acos(x) <= Pi)
    && t.acos(1.0) == 0.0
    && t.acos(-1.0) == Pi
    && (forall x :: 0.0 <= x ==> 0.0 <= t.sqrt(x))
    && (forall x :: 0.0 < x ==> 0.0 < t.sqrt(x))
    && t.sqrt(0.0) == 0.0
    && (forall x :: -1.0 <= t.cos(x) <= 1.0)
    && (forall x :: -1.0 <= t.sin(x) <= 1.0)
  }

  /** A value, or the `ZeroDivisionError` that Python raises. */
  datatype Result<T> = Ok(value: T) | ZeroDivisionError

  function Abs(x: real): real
  {
    if x < 0.0 then -x else x
  }

  /** `valid_range(x)`: whether `x` is a legal argument of `acos`. */
  function ValidRange(x: real): (valid: bool)
    ensures valid <==> -1.0 <= x <= 1.0
  {
    !(x < -1.0 || x > 1.0)
  }

  /** `target(x)`: the desired y at x. */
  function Target(x: real): (y: real)
    ensures -1.0 <= x <= 1.0 ==> y == OnTarget
    ensures x < -1.0 || 1.0 < x ==> y == OffTarget
  {
    if x < -1.0 || x > 1.0 then OffTarget else OnTarget
  }

  /** The loop-closure coefficients at one crank angle. */
  datatype Constants = Constants(A: real, B: real, C: real, check: real)

  lemma Square(x: real)
    ensures x * x >= 0.0
    ensures x != 0.0 ==> x * x > 0.0
  {
    if x < 0.0 {
      var y := -x;
      assert y * y > 0.0;
      assert x * x == y * y;
    }
  }

  /** A^2 + B^2 is never negative, and positive unless A and B are both 0. */
  lemma NormVanishes(A: real, B: real)
    ensures A * A + B * B >= 0.0
    ensures A != 0.0 || B != 0.0 ==> A * A + B * B > 0.0
  {
    Square(A);
    Square(B);
  }

  /** The divisor of `calc_constants`, `(A**2 + B**2) ** 0.5`. */
  function Divisor(t: Trig, A: real, B: real): real
  {
    t.sqrt(A * A + B * B)
  }

  /** With a lawful square root, the divisor is 0 exactly when A and B are. */
  lemma DivisorVanishes(t: Trig, A: real, B: real)
    requires Lawful(t)
    ensures Divisor(t, A, B) == 0.0 <==> A == 0.0 && B == 0.0
  {
    if A == 0.0 && B == 0.0 {
      assert A * A + B * B == 0.0;
    } else {
      NormVanishes(A, B);
    }
  }

  lemma QuotientTimesDivisor(x: real, y: real)
    requires y != 0.0
    ensures x / y * y == x
  {
  }

  /** The coefficient A of `calc_constants`. */
  function LoopA(t: Trig, theta: real, a: real, b: real, g: real): real
  {
    2.0 * b * g - 2.0 * a * b * t.cos(theta)
  }

  /** The coefficient B of `calc_constants`. */
  function LoopB(t: Trig, theta: real, a: real, b: real): real
  {
    2.0 * a * b * t.sin(theta)
  }

  /** The coefficient C of `calc_constants`. */
  function LoopC(t: Trig, theta: real, a: real, b: real, h: real, g: real): real
  {
    a * a + b * b + g * g - h * h - 2.0 * a * g * t.cos(theta)
  }

  /** `calc_constants(theta, a, b, h, g)`: raises `ZeroDivisionError` exactly when
      the square root it divides by is 0; otherwise its `check` solves
      check * sqrt(A^2 + B^2) = -C. */
  function CalcConstants(t: Trig, theta: real, a: real, b: real, h: real, g: real): (r: Result<Constants>)
    ensures r.ZeroDivisionError? <==> Divisor(t, LoopA(t, theta, a, b, g), LoopB(t, theta, a, b)) == 0.0
    ensures r.Ok? ==>
      && r.value.A == LoopA(t, theta, a, b, g) && r.value.B == LoopB(t, theta, a, b)
      && r.value.C == LoopC(t, theta, a, b, h, g)
      && r.value.check * Divisor(t, r.value.A, r.value.B) == -r.value.C
  {
    var A := LoopA(t, theta, a, b, g);
    var B := LoopB(t, theta, a, b);
    var C := LoopC(t, theta, a, b, h, g);
    var norm := Divisor(t, A, B);
    if norm == 0.0 then ZeroDivisionError
    else
      QuotientTimesDivisor(-C, norm);
      Ok(Constants(A, B, C, -C / norm))
  }

  /** With a lawful square root, `calc_constants` raises exactly when A and B are both 0. */
  lemma DegenerateConstants(t: Trig, theta: real, a: real, b: real, h: real, g: real)
    requires Lawful(t)
    ensures CalcConstants(t, theta, a, b, h, g).ZeroDivisionError? <==>
      LoopA(t, theta, a, b, g) == 0.0 && LoopB(t, theta, a, b) == 0.0
  {
    DivisorVanishes(t, LoopA(t, theta, a, b, g), LoopB(t, theta, a, b));
  }

  /** The branch rule of `sim_linkage`: the first candidate unless it is negative. */
  function PreferNonNegative(first: real, second: real): (chosen: real)
    ensures chosen == first || chosen == second
    ensures chosen >= 0.0 <==> first >= 0.0 || second >= 0.0
    ensures first >= 0.0 ==> chosen == first
    ensures first < 0.0 ==> chosen == second
  {
    if first < 0.0 then second else first
  }

  function MinCheck(a: real, h: real, b: real, g: real): real
    requires a * g != 0.0
  {
    ((h - b) * (h - b) - a * a - g * g) / (2.0 * a * g)
  }

  function MaxCheck(a: real, h: real, b: real, g: real): real
    requires a * g != 0.0
  {
    ((h + b) * (h + b) - a * a - g * g) / (2.0 * a * g)
  }

  /** `get_minmax(a, h, b, g)`: the admissible crank-angle range (theta_min, theta_max). */
  function GetMinMax(t: Trig, a: real, h: real, b: real, g: real): (r: Result<(real, real)>)
    ensures r.ZeroDivisionError? <==> a * g == 0.0
  {
    if 2.0 * a * g == 0.0 then ZeroDivisionError
    else
      var minCheck := MinCheck(a, h, b, g);
      var maxCheck := MaxCheck(a, h, b, g);
      var hasMin := ValidRange(minCheck);
      var hasMax := ValidRange(maxCheck);
      var minim := if hasMin then Abs(t.acos(minCheck)) else 0.0;
      var maxim := if hasMax then Abs(t.acos(maxCheck)) else 0.0;
      if hasMax && hasMin then Ok((minim, maxim))
      else if hasMax then Ok((-maxim, maxim))
      else if hasMin then Ok((-minim, Pi))
      else Ok((0.0, 2.0 * Pi))
  }

  /** The case table of `get_minmax`, for a lawful `acos`. */
  lemma MinMaxCases(t: Trig, a: real, h: real, b: real, g: real)
    requires Lawful(t)
    requires a * g != 0.0
    ensures var minCheck, maxCheck := MinCheck(a, h, b, g), MaxCheck(a, h, b, g);
      var r := GetMinMax(t, a, h, b, g).value;
      && (!ValidRange(minCheck) && !ValidRange(maxCheck) ==> r == (0.0, 2.0 * Pi))
      && (!ValidRange(minCheck) && ValidRange(maxCheck) ==> r == (-t.acos(maxCheck), t.acos(maxCheck)))
      && (ValidRange(minCheck) && !ValidRange(maxCheck) ==> r == (-t.acos(minCheck), Pi))
      && (ValidRange(minCheck) && ValidRange(maxCheck) ==> r == (t.acos(minCheck), t.acos(maxCheck)))
  {
  }

  /** The crank-angle range never leaves [-pi, 2 pi]. */
  lemma MinMaxBounds(t: Trig, a: real, h: real, b: real, g: real)
    requires Lawful(t)
    requires a * g != 0.0
    ensures var (lo, hi) := GetMinMax(t, a, h, b, g).value;
      -Pi <= lo <= Pi && 0.0 <= hi <= 2.0 * Pi
  {
    MinMaxCases(t, a, h, b, g);
  }

  /** One sample of the loop in `sim_linkage`. */
  datatype Sample = Traced(p: Point) | NoRealPsi | Raised

  /** The output angle psi and coupler angle phi chosen by the branch rules, for a
      crank angle whose `check` is a legal `acos` argument. */
  function CouplerAngle(t: Trig, a: real, b: real, g: real, theta: real, c: Constants): real
  {
    var delta := t.atan2(c.B, c.A);
    var psi1 := delta + t.acos(c.check);
    var psi2 := delta - t.acos(c.check);
    var psi := PreferNonNegative(psi1, psi2);
    var phi1 := t.atan2(b * t.sin(psi) - a * t.sin(theta), g + b * t.cos(psi) - a * t.cos(theta));
    var phi2 := t.atan2(b * t.sin(psi2) - a * t.sin(theta), g + b * t.cos(psi2) - a * t.cos(theta));
    PreferNonNegative(phi1, phi2)
  }

  /** The coupler point for crank angle theta and coupler angle phi. */
  function CouplerPoint(t: Trig, a: real, h: real, theta: real, phi: real): Point
  {
    (a * t.cos(theta) + h * t.cos(phi), a * t.sin(theta) + h * t.sin(phi))
  }

  /** With lawful sine and cosine, the coupler point stays within reach of the
      crank pivot: no coordinate exceeds |a| + |h|. */
  lemma CouplerPointReach(t: Trig, a: real, h: real, theta: real, phi: real)
    requires Lawful(t)
    ensures var p := CouplerPoint(t, a, h, theta, phi);
      Abs(p.0) <= Abs(a) + Abs(h) && Abs(p.1) <= Abs(a) + Abs(h)
  {
    var p := CouplerPoint(t, a, h, theta, phi);
    CombinedBound(a, h, t.cos(theta), t.cos(phi), p.0);
    CombinedBound(a, h, t.sin(theta), t.sin(phi), p.1);
  }

  lemma CombinedBound(a: real, h: real, c: real, d: real, x: real)
    requires -1.0 <= c <= 1.0 && -1.0 <= d <= 1.0
    requires x == a * c + h * d
    ensures Abs(x) <= Abs(a) + Abs(h)
  {
    ScaledBound(a, c);
    ScaledBound(h, d);
    var u, v := a * c, h * d;
    assert Abs(u + v) <= Abs(u) + Abs(v);
  }

  lemma ScaledBound(x: real, c: real)
    requires -1.0 <= c <= 1.0
    ensures Abs(x * c) <= Abs(x)
  {
    if x >= 0.0 {
      ProductNonNegative(x, 1.0 - c);
      ProductNonNegative(x, 1.0 + c);
      assert x * (1.0 - c) == x - x * c;
      assert x * (1.0 + c) == x + x * c;
    } else {
      ProductNonNegative(-x, 1.0 - c);
      ProductNonNegative(-x, 1.0 + c);
      assert (-x) * (1.0 - c) == x * c - x;
      assert (-x) * (1.0 + c) == -x - x * c;
    }
  }

  lemma ProductNonNegative(x: real, y: real)
    requires x >= 0.0 && y >= 0.0
    ensures x * y >= 0.0
  {
  }

  /** The body of the loop of `sim_linkage` at grid index `k`, theta = k / 100: it
      raises when `calc_constants` does, stops the loop when `check` is not a legal
      `acos` argument, and otherwise traces a point. */
  function SampleAt(t: Trig, a: real, h: real, b: real, g: real, k: int): (s: Sample)
    ensures var c := CalcConstants(t, k as real / 100.0, a, b, h, g);
      && (s.Raised? <==> c.ZeroDivisionError?)
      && (s.NoRealPsi? <==> c.Ok? && !(-1.0 <= c.value.check <= 1.0))
      && (s.Traced? <==> c.Ok? && -1.0 <= c.value.check <= 1.0)
  {
    var theta := k as real / 100.0;
    match CalcConstants(t, theta, a, b, h, g)
    case ZeroDivisionError => Raised
    case Ok(c) =>
      if !ValidRange(c.check) then NoRealPsi
      else Traced(CouplerPoint(t, a, h, theta, CouplerAngle(t, a, b, g, theta, c)))
  }

  /** The loop of `sim_linkage` over grid indices `k .. hi - 1`, one `sample` each:
      the points of a run that completes, or how it stopped. */
  datatype Trace = Complete(points: seq<Point>) | Invalid | Faulted

  function TraceFrom(sample: int -> Sample, k: int, hi: int): Trace
    decreases hi - k
  {
    if k >= hi then Complete([])
    else
      match sample(k)
      case Raised => Faulted
      case NoRealPsi => Invalid
      case Traced(p) => Prefixed([p], TraceFrom(sample, k + 1, hi))
  }

  /** `values` put in front of the outcome of the rest of the loop. */
  function Prefixed(values: seq<Point>, rest: Trace): Trace
  {
    if rest.Complete? then Complete(values + rest.points) else rest
  }

  /** The loop stops at the first sample that is not a point; a run that does not
      stop has one point per grid index, in order. */
  lemma TraceShape(sample: int -> Sample, k: int, hi: int)
    ensures var r := TraceFrom(sample, k, hi);
      && (r.Complete? <==> forall j :: k <= j < hi ==> sample(j).Traced?)
      && (r.Complete? ==>
            && |r.points| == (if k < hi then hi - k else 0)
            && forall i :: 0 <= i < |r.points| ==> sample(k + i) == Traced(r.points[i]))
      && (r.Invalid? <==>
            exists j :: k <= j < hi && sample(j).NoRealPsi? && forall i :: k <= i < j ==> sample(i).Traced?)
      && (r.Faulted? <==>
            exists j :: k <= j < hi && sample(j).Raised? && forall i :: k <= i < j ==> sample(i).Traced?)
  {
    TraceCompletes(sample, k, hi);
    TraceStops(sample, k, hi);
  }

  lemma {:induction false} TraceCompletes(sample: int -> Sample, k: int, hi: int)
    decreases hi - k
    ensures var r := TraceFrom(sample, k, hi);
      && (r.Complete? <==> forall j :: k <= j < hi ==> sample(j).Traced?)
      && (r.Complete? ==>
            && |r.points| == (if k < hi then hi - k else 0)
            && forall i :: 0 <= i < |r.points| ==> sample(k + i) == Traced(r.points[i]))
  {
    if k < hi {
      TraceCompletes(sample, k + 1, hi);
      var r := TraceFrom(sample, k, hi);
      var rest := TraceFrom(sample, k + 1, hi);
      if sample(k).Traced? && rest.Complete? {
        assert r == Complete([sample(k).p] + rest.points);
        forall i | 0 <= i < |r.points|
          ensures sample(k + i) == Traced(r.points[i])
        {
          if i > 0 {
            assert r.points[i] == rest.points[i - 1];
          }
        }
      }
    }
  }

  lemma {:induction false} TraceStops(sample: int -> Sample, k: int, hi: int)
    decreases hi - k
    ensures var r := TraceFrom(sample, k, hi);
      && (r.Invalid? <==>
            exists j :: k <= j < hi && sample(j).NoRealPsi? && forall i :: k <= i < j ==> sample(i).Traced?)
      && (r.Faulted? <==>
            exists j :: k <= j < hi && sample(j).Raised? && forall i :: k <= i < j ==> sample(i).Traced?)
  {
    if k < hi {
      TraceStops(sample, k + 1, hi);
      var r := TraceFrom(sample, k, hi);
      var rest := TraceFrom(sample, k + 1, hi);
      if sample(k).Traced? {
        assert r == Prefixed([sample(k).p], rest);
        if r.Invalid? {
          var j :| k + 1 <= j < hi && sample(j).NoRealPsi? && forall i :: k + 1 <= i < j ==> sample(i).Traced?;
          assert forall i :: k <= i < j ==> sample(i).Traced?;
        }
        if r.Faulted? {
          var j :| k + 1 <= j < hi && sample(j).Raised? && forall i :: k + 1 <= i < j ==> sample(i).Traced?;
          assert forall i :: k <= i < j ==> sample(i).Traced?;
        }
      }
    }
  }

  /** Adding `values` in front: the outcome of the loop from `k` on, put after the
      points already traced. */
  lemma PrefixedStep(values: seq<Point>, p: Point, rest: Trace)
    ensures Prefixed(values, Prefixed([p], rest)) == Prefixed(values + [p], rest)
  {
    if rest.Complete? {
      assert values + ([p] + rest.points) == values + [p] + rest.points;
    }
  }

  /** The samples of the simulated linkage: `Sampler(t, a, h, b, g)(k)` is
      `SampleAt(t, a, h, b, g, k)`. */
  function Sampler(t: Trig, a: real, h: real, b: real, g: real): int -> Sample
  {
    k => SampleAt(t, a, h, b, g, k)
  }

  /** The grid indices `range(floor(theta_min * 100), floor(theta_max * 100))` that
      `sim_linkage` loops over, as the pair of its bounds. */
  function Grid(range: (real, real)): (int, int)
  {
    ((range.0 * 100.0).Floor, (range.1 * 100.0).Floor)
  }

  /** What `sim_linkage` returns, or raises, once its loop has stopped. */
  function PathOf(trace: Trace): Result<seq<Point>>
  {
    match trace
    case Complete(points) => Ok(points)
    case Invalid => Ok(Sentinel)
    case Faulted => ZeroDivisionError
  }

  /** What `sim_linkage(a, h, b, g)` returns, or raises: it raises when `get_minmax`
      does; a path it returns is either the sentinel, after a sample with no real
      psi, or one traced point per grid index of the crank-angle range, in order. */
  function CouplerPath(t: Trig, a: real, h: real, b: real, g: real): (r: Result<seq<Point>>)
    ensures r.ZeroDivisionError? <==>
      || GetMinMax(t, a, h, b, g).ZeroDivisionError?
      || var (lo, hi) := Grid(GetMinMax(t, a, h, b, g).value);
         exists j :: lo <= j < hi && Sampler(t, a, h, b, g)(j).Raised? &&
                     forall i :: lo <= i < j ==> Sampler(t, a, h, b, g)(i).Traced?
    ensures r.Ok? ==>
      && GetMinMax(t, a, h, b, g).Ok?
      && var (lo, hi) := Grid(GetMinMax(t, a, h, b, g).value);
         SampledPath(Sampler(t, a, h, b, g), lo, hi, r.value)
  {
    match GetMinMax(t, a, h, b, g)
    case ZeroDivisionError => ZeroDivisionError
    case Ok(range) =>
      var (lo, hi) := Grid(range);
      var r := PathOf(TraceFrom(Sampler(t, a, h, b, g), lo, hi));
      TraceShape(Sampler(t, a, h, b, g), lo, hi);
      if r.Ok? then PathShape(Sampler(t, a, h, b, g), lo, hi); r else r
  }

  /** `path` is a list the loop of `sim_linkage` may return over grid indices
      `lo .. hi - 1`: the sentinel, after a sample with no real psi that only traced
      samples precede, or one traced point per grid index, in order (none when the
      range is empty). */
  ghost predicate SampledPath(sample: int -> Sample, lo: int, hi: int, path: seq<Point>)
  {
    || (&& path == Sentinel
        && exists j :: lo <= j < hi && sample(j).NoRealPsi? && forall i :: lo <= i < j ==> sample(i).Traced?)
    || (&& |path| == (if lo < hi then hi - lo else 0)
        && forall i :: 0 <= i < |path| ==> sample(lo + i) == Traced(path[i]))
  }

  /** The list `sim_linkage` returns over grid indices `lo .. hi - 1` is either the
      sentinel, when some sample has no real psi and none before it failed, or one
      point per grid index, none when the range is empty. */
  lemma PathShape(sample: int -> Sample, lo: int, hi: int)
    requires PathOf(TraceFrom(sample, lo, hi)).Ok?
    ensures SampledPath(sample, lo, hi, PathOf(TraceFrom(sample, lo, hi)).value)
  {
    TraceShape(sample, lo, hi);
  }

  /** The loop of `sim_linkage`: for each grid index `k` in `lo .. hi - 1` in turn,
      stop at a sample that raises or has no real psi, else append its point. */
  method SampleLoop(sample: int -> Sample, lo: int, hi: int) returns (r: Trace)
    ensures r == TraceFrom(sample, lo, hi)
  {
    var values := [];
    var k := lo;
    while k < hi
      invariant lo <= k && (lo <= hi ==> k <= hi)
      invariant TraceFrom(sample, lo, hi) == Prefixed(values, TraceFrom(sample, k, hi))
      decreases hi - k
    {
      var s := sample(k);
      if s.Raised? {
        return Faulted;
      }
      if s.NoRealPsi? {
        return Invalid;
      }
      PrefixedStep(values, s.p, TraceFrom(sample, k + 1, hi));
      values := values + [s.p];
      k := k + 1;
    }
    assert values + [] == values;
    return Complete(values);
  }

  /** `sim_linkage(a, h, b, g)`. */
  method SimLinkage(t: Trig, a: real, h: real, b: real, g: real) returns (r: Result<seq<Point>>)
    ensures r == CouplerPath(t, a, h, b, g)
  {
    var range := GetMinMax(t, a, h, b, g);
    if range.ZeroDivisionError? {
      return ZeroDivisionError;
    }
    var (thetaMin, thetaMax) := range.value;
    var lo, hi := (thetaMin * 100.0).Floor, (thetaMax * 100.0).Floor;
    assert (lo, hi) == Grid(range.value);
    var trace := SampleLoop(Sampler(t, a, h, b, g), lo, hi);
    match trace
    case Complete(values) => r := Ok(values);
    case Invalid => r := Ok(Sentinel);
    case Faulted => r := ZeroDivisionError;
  }

  /** Largest of a non-empty list, as `max`. */
  function MaxOf(xs: seq<real>): (m: real)
    requires xs != []
    ensures m in xs && forall i :: 0 <= i < |xs| ==> xs[i] <= m
  {
    if |xs| == 1 then xs[0]
    else
      var rest := MaxOf(xs[1..]);
      if xs[0] >= rest then xs[0] else rest
  }

  /** Smallest of a non-empty list, as `min`. */
  function MinOf(xs: seq<real>): (m: real)
    requires xs != []
    ensures m in xs && forall i :: 0 <= i < |xs| ==> m <= xs[i]
  {
    if |xs| == 1 then xs[0]
    else
      var rest := MinOf(xs[1..]);
      if xs[0] <= rest then xs[0] else rest
  }

  /** Sum of a list, as `fsum` (exactly, over the reals): a sum of non-negative
      terms is non-negative, and 0 only when every term is. */
  function Sum(xs: seq<real>): (total: real)
    ensures (forall i :: 0 <= i < |xs| ==> xs[i] >= 0.0) ==>
      total >= 0.0 && (total == 0.0 <==> forall i :: 0 <= i < |xs| ==> xs[i] == 0.0)
  {
    if xs == [] then 0.0 else xs[0] + Sum(xs[1..])
  }

  /** The deviation of one path point from the target. */
  function Deviation(p: Point): (d: real)
    ensures d >= 0.0
    ensures d == 0.0 <==> p.1 == Target(p.0)
  {
    Abs(Target(p.0) - p.1)
  }

  /** The `diffs` list of `simulate`: each point's deviation from the target, never
      negative, and 0 exactly for a point on the target. */
  function Diffs(path: seq<Point>): (diffs: seq<real>)
    ensures |diffs| == |path|
    ensures forall i :: 0 <= i < |diffs| ==>
      diffs[i] >= 0.0 && (diffs[i] == 0.0 <==> path[i].1 == Target(path[i].0))
  {
    seq(|path|, i requires 0 <= i < |path| => Deviation(path[i]))
  }

  /** The score that `simulate` gives a path. */
  function Score(path: seq<Point>): (score: real)
    ensures |path| <= 100 ==> score == Worst
    ensures path != [] && MaxOf(Xs(path)) - MinOf(Xs(path)) < 0.5 ==> score == Worst
    ensures |path| > 100 && MaxOf(Xs(path)) - MinOf(Xs(path)) >= 0.5 ==> score == Sum(Diffs(path))
  {
    var simX := Xs(path);
    var diffs := Diffs(path);
    if |simX| > 0 && MaxOf(simX) - MinOf(simX) < 0.5 then Worst
    else if |diffs| > 100 then Sum(diffs)
    else Worst
  }

  function Xs(path: seq<Point>): (xs: seq<real>)
    ensures |xs| == |path|
  {
    seq(|path|, i requires 0 <= i < |path| => path[i].0)
  }

  /** `simulate(child)`: the fitness of a four-gene individual (a, h, b, g). It
      raises exactly when `sim_linkage` does; otherwise it is the score of the
      path, never negative, and the worst fitness for the failure sentinel. */
  function Simulate(t: Trig, child: seq<real>): (r: Result<real>)
    requires |child| == 4
    ensures var path := CouplerPath(t, child[0], child[1], child[2], child[3]);
      && (r.ZeroDivisionError? <==> path.ZeroDivisionError?)
      && (r.Ok? ==> r.value >= 0.0 && r.value == Score(path.value))
      && (path == Ok(Sentinel) ==> r == Ok(Worst))
  {
    match CouplerPath(t, child[0], child[1], child[2], child[3])
    case ZeroDivisionError => ZeroDivisionError
    case Ok(path) =>
      ScoreRange(path);
      Ok(Score(path))
  }

  /** A score is never negative, and it is 0 only for a path of more than 100 points,
      spread at least 0.5 in x, that lies on the target curve. */
  lemma ScoreRange(path: seq<Point>)
    ensures Score(path) >= 0.0
    ensures Score(path) == 0.0 <==>
      |path| > 100 && MaxOf(Xs(path)) - MinOf(Xs(path)) >= 0.5 &&
      forall i :: 0 <= i < |path| ==> path[i].1 == Target(path[i].0)
  {
  }

  /** The failure sentinel scores the worst fitness. */
  lemma SentinelScoresWorst()
    ensures Score(Sentinel) == Worst
  {
  }

  /** With all four links of length 1 both limits exist (the checks are exactly -1
      and 1), so the range is (pi, 0): no sample is taken and the score is the worst. */
  lemma UnitLinkage(t: Trig)
    requires Lawful(t)
    ensures MinCheck(1.0, 1.0, 1.0, 1.0) == -1.0 && MaxCheck(1.0, 1.0, 1.0, 1.0) == 1.0
    ensures GetMinMax(t, 1.0, 1.0, 1.0, 1.0) == Ok((Pi, 0.0))
    ensures CouplerPath(t, 1.0, 1.0, 1.0, 1.0) == Ok([])
    ensures Simulate(t, [1.0, 1.0, 1.0, 1.0]) == Ok(Worst)
  {
    MinMaxCases(t, 1.0, 1.0, 1.0, 1.0);
    assert (Pi * 100.0).Floor == 314;
  }

  /** With no limit on theta the crank turns fully: 628 samples, k = 0 .. 627. */
  lemma FullRotationGrid(t: Trig, a: real, h: real, b: real, g: real)
    requires a * g != 0.0
    requires !ValidRange(MinCheck(a, h, b, g)) && !ValidRange(MaxCheck(a, h, b, g))
    ensures GetMinMax(t, a, h, b, g) == Ok((0.0, 2.0 * Pi))
    ensures (0.0 * 100.0).Floor == 0 && (2.0 * Pi * 100.0).Floor == 628
  {
  }
}
