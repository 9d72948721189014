/** The pure arithmetic of the profile card's tilt effect: the helpers at the
    top of ProfileCard.jsx (clamp, round, adjust), the formulas that turn the
    smoothed pointer offset into visual parameters, and the exponential
    smoothing applied once per animation frame. */
module TiltMath {

  function Abs(v: real): real { if v < 0.0 then -v else v }

  /** r lies on the closed segment between a and b, in either order. */
  predicate Between(a: real, r: real, b: real) {
    (a <= r <= b) || (b <= r <= a)
  }

  // ---------------------------------------------------------------------
  // clamp, round, adjust
  // ---------------------------------------------------------------------

  /** clamp(v, min, max) = Math.min(Math.max(v, min), max). */
  function Clamp(v: real, lo: real, hi: real): (r: real)
    ensures r <= hi
    ensures lo <= hi ==> lo <= r
    ensures lo <= v <= hi ==> r == v
    ensures v < lo <= hi ==> r == lo
    ensures hi < v ==> r == hi
  {
    var m := if v < lo then lo else v;
    if m < hi then m else hi
  }

  /** round(v) = parseFloat(v.toFixed(3)): the nearest multiple of 1/1000,
      ties away from zero (toFixed rounds the magnitude and keeps the sign). */
  function Round3(v: real): real {
    if v < 0.0 then -(Nearest(-v * 1000.0) as real) / 1000.0
    else Nearest(v * 1000.0) as real / 1000.0
  }

  /** The integer nearest to u, ties upwards: Math.round, and the rounding
      of a magnitude that toFixed performs. */
  function Nearest(u: real): (n: int)
    ensures u - 0.5 < n as real <= u + 0.5
  {
    (u + 0.5).Floor
  }

  /** Rounding is symmetric about zero: a tie on the negative side goes
      down, away from zero, as toFixed does. */
  lemma Round3Symmetric(v: real)
    ensures Round3(-v) == -Round3(v)
    ensures v * 1000.0 == 0.5 ==> Round3(v) == 0.001 && Round3(-v) == -0.001
  {
  }

  lemma FloorBounds(u: real)
    ensures u.Floor as real <= u < u.Floor as real + 1.0
  {
  }

  lemma NearestBounds(u: real)
    ensures u - 0.5 < Nearest(u) as real <= u + 0.5
    ensures 0.0 <= u ==> 0 <= Nearest(u)
  {
    FloorBounds(u + 0.5);
  }

  lemma NearestMonotone(a: real, b: real)
    requires a <= b
    ensures Nearest(a) <= Nearest(b)
  {
    FloorBounds(a + 0.5);
    FloorBounds(b + 0.5);
  }

  lemma Round3Close(v: real)
    ensures Abs(Round3(v) - v) <= 0.0005
  {
    if v < 0.0 {
      NearestBounds(-v * 1000.0);
    } else {
      NearestBounds(v * 1000.0);
    }
  }

  /** Rounding to thousandths never reverses the order of two values. */
  lemma Round3Monotone(a: real, b: real)
    requires a <= b
    ensures Round3(a) <= Round3(b)
  {
    if a < 0.0 && b < 0.0 {
      NearestMonotone(-b * 1000.0, -a * 1000.0);
    } else if 0.0 <= a {
      NearestMonotone(a * 1000.0, b * 1000.0);
    } else {
      NearestBounds(-a * 1000.0);
      NearestBounds(b * 1000.0);
    }
  }

  lemma NearestOfInteger(n: int)
    ensures Nearest(n as real) == n
  {
    FloorBounds(n as real + 0.5);
  }

  /** A multiple of 1/1000 is left as it is. */
  lemma Round3Exact(n: int)
    ensures Round3(n as real / 1000.0) == n as real / 1000.0
  {
    var v := n as real / 1000.0;
    if n < 0 {
      assert -v * 1000.0 == (-n) as real;
      NearestOfInteger(-n);
      assert Round3(v) == -((-n) as real) / 1000.0;
    } else {
      assert v * 1000.0 == n as real;
      NearestOfInteger(n);
      assert Round3(v) == n as real / 1000.0;
    }
  }

  /** Bounds that are multiples of 1/1000 survive rounding. */
  lemma Round3Within(v: real, lo: int, hi: int)
    requires lo as real / 1000.0 <= v <= hi as real / 1000.0
    ensures lo as real / 1000.0 <= Round3(v) <= hi as real / 1000.0
  {
    Round3Monotone(lo as real / 1000.0, v);
    Round3Monotone(v, hi as real / 1000.0);
    Round3Exact(lo);
    Round3Exact(hi);
  }

  /** The linear map of [fMin, fMax] onto [tMin, tMax], before rounding. */
  function Remap(v: real, fMin: real, fMax: real, tMin: real, tMax: real): (r: real)
    requires fMax != fMin
    ensures v == fMin ==> r == tMin
    ensures v == fMax ==> r == tMax
  {
    tMin + ((tMax - tMin) * (v - fMin)) / (fMax - fMin)
  }

  /** adjust(v, fMin, fMax, tMin, tMax) = round(remap(v)). */
  function Adjust(v: real, fMin: real, fMax: real, tMin: real, tMax: real): real
    requires fMax != fMin
  {
    Round3(Remap(v, fMin, fMax, tMin, tMax))
  }

  /** The background shift: [0,100] onto [35,65], endpoints exact, order kept. */
  lemma BackgroundShift(p: real, q: real)
    requires 0.0 <= p <= q <= 100.0
    ensures 35.0 <= Adjust(p, 0.0, 100.0, 35.0, 65.0) <= Adjust(q, 0.0, 100.0, 35.0, 65.0) <= 65.0
    ensures Adjust(0.0, 0.0, 100.0, 35.0, 65.0) == 35.0
    ensures Adjust(50.0, 0.0, 100.0, 35.0, 65.0) == 50.0
    ensures Adjust(100.0, 0.0, 100.0, 35.0, 65.0) == 65.0
  {
    assert Remap(p, 0.0, 100.0, 35.0, 65.0) == 35.0 + 0.3 * p;
    assert Remap(q, 0.0, 100.0, 35.0, 65.0) == 35.0 + 0.3 * q;
    Round3Within(Remap(p, 0.0, 100.0, 35.0, 65.0), 35000, 65000);
    Round3Within(Remap(q, 0.0, 100.0, 35.0, 65.0), 35000, 65000);
    Round3Monotone(Remap(p, 0.0, 100.0, 35.0, 65.0), Remap(q, 0.0, 100.0, 35.0, 65.0));
    Round3Exact(35000);
    Round3Exact(50000);
    Round3Exact(65000);
  }

  // ---------------------------------------------------------------------
  // Visual parameters (setVars)
  // ---------------------------------------------------------------------

  /** The measured size of the card shell (clientWidth, clientHeight). */
  datatype Surface = Surface(width: nat, height: nat)

  /** `shell.clientWidth || 1`: a zero size is read as one pixel. */
  function SizeOrOne(n: nat): (r: nat)
    ensures 1 <= r
    ensures n != 0 ==> r == n
  {
    if n == 0 then 1 else n
  }

  /** px = clamp((100 / w) * x), with the default bounds 0 and 100. */
  function PointerPercent(coord: real, size: nat): (p: real)
    ensures 0.0 <= p <= 100.0
  {
    Clamp((100.0 / SizeOrOne(size) as real) * coord, 0.0, 100.0)
  }

  /** Inside a non-empty surface the percentage is exact, with no clamping. */
  lemma PointerPercentInside(coord: real, size: nat)
    requires 0 < size && 0.0 <= coord <= size as real
    ensures PointerPercent(coord, size) == 100.0 * coord / size as real
  {
    var s := size as real;
    assert (100.0 / s) * coord == 100.0 * (coord / s);
    assert coord / s <= 1.0;
  }

  function Sq(v: real): real { v * v }

  /** Math.hypot, described by what it computes: the non-negative root of
      a*a + b*b. */
  ghost predicate HypotLaw(hypot: (real, real) -> real) {
    forall a: real, b: real :: 0.0 <= hypot(a, b) && Sq(hypot(a, b)) == Sq(a) + Sq(b)
  }

  lemma SqPositive(v: real)
    requires v != 0.0
    ensures 0.0 < Sq(v)
  {
    if 0.0 < v {
      ProductPositive(v, v, Sq(v));
    } else {
      ProductPositive(-v, -v, Sq(v));
    }
  }

  lemma SqNonneg(v: real)
    ensures 0.0 <= Sq(v)
  {
    if v != 0.0 {
      SqPositive(v);
    }
  }

  /** Squaring keeps the order of non-negative numbers. */
  lemma SqOrder(u: real, v: real)
    requires 0.0 <= u <= v
    ensures Sq(u) <= Sq(v)
    ensures u < v ==> Sq(u) < Sq(v)
  {
    if u < v {
      // v*v - u*u = (v - u) * (v + u)
      ProductPositive(v - u, v + u, Sq(v) - Sq(u));
    }
  }

  /** A root h of a*a + b*b is zero exactly when a and b both are. */
  lemma RootZeroIff(h: real, a: real, b: real)
    requires 0.0 <= h && Sq(h) == Sq(a) + Sq(b)
    ensures h == 0.0 <==> (a == 0.0 && b == 0.0)
  {
    SqNonneg(a);
    SqNonneg(b);
    if h != 0.0 {
      SqPositive(h);
    }
    if a != 0.0 {
      SqPositive(a);
    }
    if b != 0.0 {
      SqPositive(b);
    }
  }

  /** The parameters setVars writes onto the card wrapper, as numbers
      (the `%` and `deg` suffixes are formatting). */
  datatype VisualParams = VisualParams(
    pointerX: real, pointerY: real,
    backgroundX: real, backgroundY: real,
    fromCenter: real, fromTop: real, fromLeft: real,
    rotateX: real, rotateY: real)

  /** pointer-from-center: the distance of (px, py) from (50, 50) divided
      by 50, clamped to [0, 1]. */
  function FromCenter(px: real, py: real, hypot: (real, real) -> real): (d: real)
    ensures 0.0 <= d <= 1.0
  {
    Clamp(hypot(py - 50.0, px - 50.0) / 50.0, 0.0, 1.0)
  }

  /** setVars(x, y) for a surface of the given size. */
  function Params(x: real, y: real, s: Surface, hypot: (real, real) -> real): VisualParams {
    var px := PointerPercent(x, s.width);
    var py := PointerPercent(y, s.height);
    VisualParams(
      px, py,
      Adjust(px, 0.0, 100.0, 35.0, 65.0), Adjust(py, 0.0, 100.0, 35.0, 65.0),
      FromCenter(px, py, hypot),
      py / 100.0, px / 100.0,
      Round3(-(px - 50.0) / 5.0), Round3((py - 50.0) / 4.0))
  }

  /** Every parameter stays in its range, for any pointer offset and any
      surface size, including a zero-size one. */
  lemma ParamsInRange(x: real, y: real, s: Surface, hypot: (real, real) -> real)
    ensures var v := Params(x, y, s, hypot);
      && 0.0 <= v.pointerX <= 100.0 && 0.0 <= v.pointerY <= 100.0
      && 35.0 <= v.backgroundX <= 65.0 && 35.0 <= v.backgroundY <= 65.0
      && 0.0 <= v.fromCenter <= 1.0
      && 0.0 <= v.fromTop <= 1.0 && 0.0 <= v.fromLeft <= 1.0
      && -10.0 <= v.rotateX <= 10.0 && -12.5 <= v.rotateY <= 12.5
  {
    var px := PointerPercent(x, s.width);
    var py := PointerPercent(y, s.height);
    BackgroundShift(px, px);
    BackgroundShift(py, py);
    Round3Within(-(px - 50.0) / 5.0, -10000, 10000);
    Round3Within((py - 50.0) / 4.0, -12500, 12500);
  }

  /** pointer-from-center is 0 exactly at the middle of the card. */
  lemma FromCenterZeroIff(px: real, py: real, hypot: (real, real) -> real)
    requires HypotLaw(hypot)
    ensures FromCenter(px, py, hypot) == 0.0 <==> (px == 50.0 && py == 50.0)
  {
    var h := hypot(py - 50.0, px - 50.0);
    RootZeroIff(h, py - 50.0, px - 50.0);
  }

  /** pointer-from-center is 1 at each of the four corners. */
  lemma FromCenterCorners(px: real, py: real, hypot: (real, real) -> real)
    requires HypotLaw(hypot)
    requires (px == 0.0 || px == 100.0) && (py == 0.0 || py == 100.0)
    ensures FromCenter(px, py, hypot) == 1.0
  {
    var h := hypot(py - 50.0, px - 50.0);
    assert Sq(h) == 5000.0;
    if h <= 50.0 {
      SqOrder(h, 50.0);
    }
  }

  /** A 200 x 100 card with the pointer at (130, 60). */
  lemma ParamsExample(hypot: (real, real) -> real)
    ensures var v := Params(130.0, 60.0, Surface(200, 100), hypot);
      && v.pointerX == 65.0 && v.pointerY == 60.0
      && v.rotateX == -3.0 && v.rotateY == 2.5
      && v.fromTop == 0.6 && v.fromLeft == 0.65
  {
    assert PointerPercent(130.0, 200) == 65.0;
    assert PointerPercent(60.0, 100) == 60.0;
    Round3Exact(-3000);
    Round3Exact(2500);
  }

  // ---------------------------------------------------------------------
  // Exponential smoothing
  // ---------------------------------------------------------------------

  /** 1 - exp(-x), described by what the engine relies on: zero at zero,
      in [0, 1) for non-negative arguments, strictly increasing. */
  ghost predicate DecayLaw(decay: real -> real) {
    && decay(0.0) == 0.0
    && (forall x: real :: 0.0 <= x ==> 0.0 <= decay(x) < 1.0)
    && (forall x: real, y: real :: 0.0 <= x < y ==> decay(x) < decay(y))
  }

  /** The smoothing time constant in seconds: slow during the entrance
      phase, fast afterwards. */
  function Tau(ts: real, initialUntil: real): real {
    if ts < initialUntil then 0.6 else 0.14
  }

  /** Seconds since the previous frame; the first frame after a (re)start,
      marked by lastTs == 0, counts as no time at all. */
  function Elapsed(ts: real, lastTs: real): (dt: real)
    ensures lastTs == 0.0 ==> dt == 0.0
    ensures lastTs <= ts ==> 0.0 <= dt
  {
    if lastTs == 0.0 then 0.0 else (ts - lastTs) / 1000.0
  }

  /** The smoothing factor k of one frame lies in [0, 1), and is 0 when no
      time has passed. */
  lemma FactorInUnit(decay: real -> real, dt: real, ts: real, initialUntil: real)
    requires DecayLaw(decay) && 0.0 <= dt
    ensures 0.0 <= decay(dt / Tau(ts, initialUntil)) < 1.0
    ensures dt == 0.0 ==> decay(dt / Tau(ts, initialUntil)) == 0.0
  {
    assert 0.0 <= dt / Tau(ts, initialUntil);
  }

  /** For the same elapsed time, a frame inside the entrance phase moves the
      card less than a frame after it. */
  lemma EntranceIsSlower(decay: real -> real, dt: real, early: real, late: real, initialUntil: real)
    requires DecayLaw(decay) && 0.0 < dt
    requires early < initialUntil <= late
    ensures decay(dt / Tau(early, initialUntil)) < decay(dt / Tau(late, initialUntil))
  {
    assert 0.0 <= dt / 0.6 < dt / 0.14;
  }

  /** current += (target - current) * k. What is left of the gap is the
      fraction 1 - k of what there was. */
  function Smooth(c: real, t: real, k: real): (r: real)
    ensures k == 0.0 ==> r == c
    ensures k == 1.0 ==> r == t
    ensures t - r == (1.0 - k) * (t - c)
  {
    c + (t - c) * k
  }

  lemma MulNonneg(a: real, b: real)
    requires 0.0 <= a && 0.0 <= b
    ensures 0.0 <= a * b
  {
  }

  /** 0 < a * b for positive a and b; the product is passed in as q so that
      the solver reasons about a plain term. */
  lemma ProductPositive(a: real, b: real, q: real)
    requires 0.0 < a && 0.0 < b && q == a * b
    ensures 0.0 < q
  {
  }

  /** A fraction in [0, 1] of a quantity lies between 0 and that quantity. */
  lemma ScaleWithin(k: real, d: real)
    requires 0.0 <= k <= 1.0
    ensures Between(0.0, k * d, d)
  {
    if 0.0 <= d {
      MulNonneg(k, d);
      MulNonneg(1.0 - k, d);
      assert (1.0 - k) * d == d - k * d;
    } else {
      MulNonneg(k, -d);
      MulNonneg(1.0 - k, -d);
      assert (1.0 - k) * -d == k * d - d;
    }
  }

  /** One frame with k in [0, 1] never carries the current point past the
      target and never moves it away from the target. */
  lemma SmoothNoOvershoot(c: real, t: real, k: real)
    requires 0.0 <= k <= 1.0
    ensures Between(c, Smooth(c, t, k), t)
    ensures Abs(t - Smooth(c, t, k)) <= Abs(t - c)
  {
    ScaleWithin(k, t - c);
    ScaleWithin(1.0 - k, t - c);
  }

  /** The product of the factors (1 - k) of a run of frames: the fraction of
      the distance to the target that is left after them. */
  function Retained(ks: seq<real>): real {
    if ks == [] then 1.0 else (1.0 - ks[0]) * Retained(ks[1..])
  }

  /** The current coordinate after a run of frames with factors ks towards
      one unchanging target. */
  function Approach(c: real, t: real, ks: seq<real>): real
    decreases |ks|
  {
    if ks == [] then c else Approach(Smooth(c, t, ks[0]), t, ks[1..])
  }

  function Pow(b: real, n: nat): real {
    if n == 0 then 1.0 else b * Pow(b, n - 1)
  }

  predicate AllIn(ks: seq<real>, lo: real, hi: real) {
    forall i :: 0 <= i < |ks| ==> lo <= ks[i] <= hi
  }

  lemma MulMonotone(a: real, b: real, c: real)
    requires 0.0 <= c && a <= b
    ensures a * c <= b * c && c * a <= c * b
  {
    MulNonneg(b - a, c);
    assert (b - a) * c == b * c - a * c;
  }

  /** After any run of frames the remaining gap is the initial gap scaled
      by the retained fraction. */
  lemma {:induction false} ApproachGap(c: real, t: real, ks: seq<real>)
    ensures t - Approach(c, t, ks) == Retained(ks) * (t - c)
    decreases |ks|
  {
    if ks != [] {
      var c1 := Smooth(c, t, ks[0]);
      ApproachGap(c1, t, ks[1..]);
      calc {
        t - Approach(c, t, ks);
        t - Approach(c1, t, ks[1..]);
        Retained(ks[1..]) * (t - c1);
        Retained(ks[1..]) * ((1.0 - ks[0]) * (t - c));
        ((1.0 - ks[0]) * Retained(ks[1..])) * (t - c);
      }
    }
  }

  lemma {:induction false} RetainedInUnit(ks: seq<real>)
    requires AllIn(ks, 0.0, 1.0)
    ensures 0.0 <= Retained(ks) <= 1.0
    decreases |ks|
  {
    if ks != [] {
      assert AllIn(ks[1..], 0.0, 1.0) by {
        forall i | 0 <= i < |ks[1..]| ensures 0.0 <= ks[1..][i] <= 1.0 {
          assert ks[1..][i] == ks[i + 1];
        }
      }
      RetainedInUnit(ks[1..]);
      ScaleWithin(Retained(ks[1..]), 1.0 - ks[0]);
      assert Retained(ks) == Retained(ks[1..]) * (1.0 - ks[0]);
    }
  }

  /** If every frame moves at least the fraction kMin of the way, the gap
      shrinks at least geometrically. */
  lemma {:induction false} RetainedGeometric(ks: seq<real>, kMin: real)
    requires 0.0 <= kMin <= 1.0 && AllIn(ks, kMin, 1.0)
    ensures Retained(ks) <= Pow(1.0 - kMin, |ks|)
    decreases |ks|
  {
    if ks != [] {
      assert AllIn(ks[1..], kMin, 1.0) by {
        forall i | 0 <= i < |ks[1..]| ensures kMin <= ks[1..][i] <= 1.0 {
          assert ks[1..][i] == ks[i + 1];
        }
      }
      RetainedGeometric(ks[1..], kMin);
      RetainedInUnit(ks[1..]);
      MulBoth(1.0 - ks[0], 1.0 - kMin, Retained(ks[1..]), Pow(1.0 - kMin, |ks| - 1));
    }
  }

  lemma MulBoth(a: real, a': real, b: real, b': real)
    requires 0.0 <= a <= a' && 0.0 <= b <= b'
    ensures a * b <= a' * b'
  {
    MulMonotone(a, a', b);
    MulMonotone(b, b', a');
  }

  /** With every factor in [0, 1], a run of frames towards one target never
      overshoots it and never moves away from it. */
  lemma ApproachNoOvershoot(c: real, t: real, ks: seq<real>)
    requires AllIn(ks, 0.0, 1.0)
    ensures Between(c, Approach(c, t, ks), t)
    ensures Abs(t - Approach(c, t, ks)) <= Abs(t - c)
  {
    ApproachGap(c, t, ks);
    RetainedInUnit(ks);
    ScaleWithin(Retained(ks), t - c);
    ScaleWithin(1.0 - Retained(ks), t - c);
    assert (1.0 - Retained(ks)) * (t - c) == (t - c) - Retained(ks) * (t - c);
  }
}
