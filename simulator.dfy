/**
 * The per-tick particle simulator (`updateParticles`).  Every tick moves
 * every particle in one of two global modes: while the cursor hovers,
 * particles walk home at a fixed speed and fade out; otherwise they float
 * around a noisy target near home, are pulled back softly when they stray
 * beyond `spread`, ease their opacity towards a sparkling target and have
 * their rainbow colour refreshed one third at a time.
 */
module Simulator {
  import opened JsMath
  import opened Colour
  import opened Particles

  /** `RETURN_SPEED`: pixels per 1/60 s a hovered particle walks home. */
  const ReturnSpeed: real := 4.0
  /** `NOISE_SCALE`. */
  const NoiseScale: real := 0.6
  /** `CHAOS_FACTOR`. */
  const ChaosFactor: real := 1.2
  /** `FADE_SPEED`: opacity lost per second while hovered. */
  const FadeSpeed: real := 20.0
  /** Closer to home than this, a hovered particle snaps home. */
  const SnapDistance: real := 0.1

  // ---------------------------------------------------------------------
  // Hover mode

  /**
   * One hover tick: a step of `ReturnSpeed * deltaTime * 60` pixels along
   * the unit vector towards home (`distance` is sqrt(dx² + dy²)), or a snap home when within `SnapDistance`;
   * the opacity drops by `FadeSpeed * deltaTime`, but not below 0.
   */
  function HoverStep(m: MathLib, p: Particle, deltaTime: real): Particle {
    var dx := p.originalX - p.x;
    var dy := p.originalY - p.y;
    var distance := m.sqrt(HomeDistance2(p));
    var opacity := Max(0.0, p.opacity - FadeSpeed * deltaTime);
    var step := ReturnSpeed * deltaTime * 60.0;
    if distance > SnapDistance then
      p.(x := p.x + dx / distance * step, y := p.y + dy / distance * step, opacity := opacity)
    else
      p.(x := p.originalX, y := p.originalY, opacity := opacity)
  }

  /** A hover tick changes only the position and the opacity. */
  lemma HoverStepFrame(m: MathLib, p: Particle, deltaTime: real)
    ensures var q := HoverStep(m, p, deltaTime); q == p.(x := q.x, y := q.y, opacity := q.opacity)
  {
  }

  /**
   * A hovered particle within 0.1 of home lands exactly on it, so a
   * particle already home stays home.
   */
  lemma HoverSnapsHome(m: MathLib, p: Particle, deltaTime: real)
    requires ExactRoot(m) && HomeDistance2(p) <= SnapDistance * SnapDistance
    ensures AtHome(HoverStep(m, p, deltaTime))
  {
    var d := m.sqrt(HomeDistance2(p));
    if d > SnapDistance {
      SquareMonotoneStrict(SnapDistance, d);
      assert false;
    }
  }

  /**
   * A hovered particle further than 0.1 from home moves by exactly
   * `ReturnSpeed * deltaTime * 60` towards it: its new distance from home is
   * |d - s| for old distance d and step s.  The step may overshoot home.
   */
  lemma HoverStepLength(m: MathLib, p: Particle, deltaTime: real)
    requires ExactRoot(m) && HomeDistance2(p) > SnapDistance * SnapDistance
    ensures var d := m.sqrt(HomeDistance2(p));
            var s := ReturnSpeed * deltaTime * 60.0;
            HomeDistance2(HoverStep(m, p, deltaTime)) == (d - s) * (d - s)
  {
    var d := m.sqrt(HomeDistance2(p));
    var s := ReturnSpeed * deltaTime * 60.0;
    RootOf(m, HomeDistance2(p));
    if d <= SnapDistance {
      SquareMonotone(d, SnapDistance);
      assert false;
    }
    StepTowards(p, HoverStep(m, p, deltaTime), d, s);
  }

  /** What `ExactRoot` says of one value. */
  lemma RootOf(m: MathLib, v: real)
    requires ExactRoot(m) && 0.0 <= v
    ensures 0.0 <= m.sqrt(v) && m.sqrt(v) * m.sqrt(v) == v
  {
  }

  /**
   * A particle at distance d > 0 from home, moved s along the unit vector
   * towards home, ends at distance |d - s|.
   */
  lemma StepTowards(p: Particle, q: Particle, d: real, s: real)
    requires 0.0 < d && d * d == HomeDistance2(p)
    requires q.originalX == p.originalX && q.originalY == p.originalY
    requires q.x == p.x + (p.originalX - p.x) / d * s && q.y == p.y + (p.originalY - p.y) / d * s
    ensures HomeDistance2(q) == (d - s) * (d - s)
  {
    Negate(p.x - p.originalX, d, s);
    Negate(p.y - p.originalY, d, s);
    StepBack(p, q, d, s);
  }

  /** Stepping along the negated offset is stepping back along the offset. */
  lemma Negate(a: real, d: real, s: real)
    requires d != 0.0
    ensures (-a) / d * s == -(a / d * s)
  {
  }

  /**
   * Moving the point at offset (ax, ay), at distance d > 0, by s along its
   * own direction leaves it at distance |d - s|.
   */
  lemma ShrinkOffset(ax: real, ay: real, d: real, s: real)
    requires 0.0 < d && d * d == ax * ax + ay * ay
    ensures (ax - ax / d * s) * (ax - ax / d * s) + (ay - ay / d * s) * (ay - ay / d * s) == (d - s) * (d - s)
  {
    var k := 1.0 - s / d;
    assert ax - ax / d * s == ax * k;
    assert ay - ay / d * s == ay * k;
    calc {
      (ax * k) * (ax * k) + (ay * k) * (ay * k);
      (ax * ax + ay * ay) * (k * k);
      (d * d) * (k * k);
      (d * k) * (d * k);
      { assert d * k == d - s; }
      (d - s) * (d - s);
    }
  }

  /**
   * The hover fade gives exactly max(0, opacity - 20 dt): never negative,
   * and never raised from a non-negative opacity.
   */
  lemma HoverFades(m: MathLib, p: Particle, deltaTime: real)
    ensures var q := HoverStep(m, p, deltaTime);
            0.0 <= q.opacity &&
            (0.0 <= deltaTime && 0.0 <= p.opacity ==> q.opacity <= p.opacity) &&
            p.opacity - FadeSpeed * deltaTime <= q.opacity &&
            (q.opacity == 0.0 || q.opacity == p.opacity - FadeSpeed * deltaTime)
  {
  }

  /** Total time of a run of ticks. */
  function Elapsed(dts: seq<real>): real
    decreases |dts|
  {
    if dts == [] then 0.0 else dts[0] + Elapsed(dts[1..])
  }

  /** A particle after a run of hover ticks of durations `dts`. */
  function HoverTicks(m: MathLib, p: Particle, dts: seq<real>): Particle
    decreases |dts|
  {
    if dts == [] then p else HoverTicks(m, HoverStep(m, p, dts[0]), dts[1..])
  }

  predicate NonNegative(dts: seq<real>) {
    forall i :: 0 <= i < |dts| ==> 0.0 <= dts[i]
  }

  /**
   * Over a run of hover ticks the opacity falls linearly with the elapsed
   * time until it reaches 0, and stays there.
   */
  lemma {:induction false} HoverFadeOut(m: MathLib, p: Particle, dts: seq<real>)
    requires 0.0 <= p.opacity && NonNegative(dts)
    ensures HoverTicks(m, p, dts).opacity == Max(0.0, p.opacity - FadeSpeed * Elapsed(dts))
    decreases |dts|
  {
    if dts != [] {
      var q := HoverStep(m, p, dts[0]);
      assert NonNegative(dts[1..]) by {
        forall i | 0 <= i < |dts[1..]| ensures 0.0 <= dts[1..][i] {
          assert dts[1..][i] == dts[i + 1];
        }
      }
      HoverFadeOut(m, q, dts[1..]);
      assert 0.0 <= Elapsed(dts[1..]) by {
        ElapsedNonNegative(dts[1..]);
      }
    }
  }

  lemma {:induction false} ElapsedNonNegative(dts: seq<real>)
    requires NonNegative(dts)
    ensures 0.0 <= Elapsed(dts)
    decreases |dts|
  {
    if dts != [] {
      assert NonNegative(dts[1..]) by {
        forall i | 0 <= i < |dts[1..]| ensures 0.0 <= dts[1..][i] {
          assert dts[1..][i] == dts[i + 1];
        }
      }
      ElapsedNonNegative(dts[1..]);
    }
  }

  /** `n` ticks of the same duration. */
  function Repeat(deltaTime: real, n: nat): (dts: seq<real>)
    ensures |dts| == n && forall i :: 0 <= i < n ==> dts[i] == deltaTime
  {
    seq(n, _ => deltaTime)
  }

  /** A root the host's `sqrt` must return: the non-negative one. */
  lemma ExactRootOf(m: MathLib, v: real, r: real)
    requires ExactRoot(m) && 0.0 <= r && r * r == v
    ensures m.sqrt(v) == r
  {
    var s := m.sqrt(v);
    if s < r {
      SquareMonotoneStrict(s, r);
    } else if r < s {
      SquareMonotoneStrict(r, s);
    }
  }

  /**
   * At 30 frames a second a step is 8 pixels, so a particle 0.2 pixels
   * from home jumps to 7.8 pixels past it and then back: two hover ticks
   * bring it to where it started.
   */
  lemma HoverTwoTicks(m: MathLib, p: Particle, q: Particle)
    requires ExactRoot(m) && p.originalX == 0.0 && p.originalY == 0.0 && p.x == 0.2 && p.y == 0.0
    requires q == HoverStep(m, HoverStep(m, p, 1.0 / 30.0), 1.0 / 30.0)
    ensures q.x == 0.2 && q.y == 0.0 && q.originalX == 0.0 && q.originalY == 0.0
  {
    ExactRootOf(m, 0.04, 0.2);
    var q1 := HoverStep(m, p, 1.0 / 30.0);
    assert q1.x == -7.8 && q1.y == 0.0;
    ExactRootOf(m, 60.84, 7.8);
  }

  /**
   * The fixed-length hover step need not settle: the particle of
   * `HoverTwoTicks` is back 0.2 pixels from home after every even number
   * of ticks, however long the cursor stays.
   */
  lemma {:induction false} HoverMaySettleNever(m: MathLib, p: Particle, k: nat)
    requires ExactRoot(m) && p.originalX == 0.0 && p.originalY == 0.0 && p.x == 0.2 && p.y == 0.0
    ensures var q := HoverTicks(m, p, Repeat(1.0 / 30.0, 2 * k));
            q.x == 0.2 && q.y == 0.0 && !AtHome(q)
    decreases k
  {
    if k > 0 {
      var dt := 1.0 / 30.0;
      var dts := Repeat(dt, 2 * k);
      var q1 := HoverStep(m, p, dt);
      var q2 := HoverStep(m, q1, dt);
      HoverTwoTicks(m, p, q2);
      HoverTicksCons(m, p, dts);
      HoverTicksCons(m, q1, dts[1..]);
      assert dts[1..][1..] == Repeat(dt, 2 * (k - 1));
      HoverMaySettleNever(m, q2, k - 1);
    }
  }

  /** The first tick of a run. */
  lemma HoverTicksCons(m: MathLib, p: Particle, dts: seq<real>)
    requires dts != []
    ensures HoverTicks(m, p, dts) == HoverTicks(m, HoverStep(m, p, dts[0]), dts[1..])
  {
  }

  // ---------------------------------------------------------------------
  // Idle mode

  /** The `Math.random()` draws one idle tick makes for one particle, each in [0, 1). */
  datatype IdleDraw = IdleDraw(
    chaos: real,
    noiseX: real,
    noiseY: real,
    jitterX: real,
    jitterY: real,
    coin: real,
    level: real,
    sparkle: real)

  predicate ValidIdleDraw(d: IdleDraw) {
    IsUnit(d.chaos) && IsUnit(d.noiseX) && IsUnit(d.noiseY) && IsUnit(d.jitterX) &&
    IsUnit(d.jitterY) && IsUnit(d.coin) && IsUnit(d.level) && IsUnit(d.sparkle)
  }

  /**
   * `jitterScale`: the distance to the target over 1.5 `spread`, capped at 1.
   * With `spread` 0 the quotient is +Infinity for a positive distance, so
   * the cap gives 1.
   */
  function JitterScale(distanceFromTarget: real, spread: real): real {
    if spread == 0.0 then 1.0 else Min(1.0, distanceFromTarget / (spread * 1.5))
  }

  /**
   * The noise of an idle tick on each axis, before it is scaled by
   * `spread`: two waves keyed to the particle's floating speed and angle,
   * plus a random kick.
   */
  function Noise(m: MathLib, p: Particle, time: real, floatingAngle: real, d: IdleDraw): (real, real) {
    var uniqueOffset := p.floatingSpeed * 1000.0;
    ((m.sin(time * p.floatingSpeed + floatingAngle) * 1.2 +
      m.sin((time + uniqueOffset) * 0.3) * 0.6 +
      (d.noiseX - 0.5) * ChaosFactor) * NoiseScale,
     (m.cos(time * p.floatingSpeed + floatingAngle * 1.2) * 0.6 +
      m.cos((time + uniqueOffset) * 0.3) * 0.4 +
      (d.noiseY - 0.5) * ChaosFactor) * NoiseScale)
  }

  /** The point an idle particle drifts towards: home, offset by `spread` times the noise. */
  function Target(m: MathLib, p: Particle, time: real, spread: real, floatingAngle: real, d: IdleDraw): (real, real) {
    var noise := Noise(m, p, time, floatingAngle, d);
    (p.originalX + spread * noise.0, p.originalY + spread * noise.1)
  }

  /**
   * The floating part of an idle tick: the floating angle advances, a noisy
   * target near home is chosen, and the particle eases towards it.
   */
  function Drift(m: MathLib, p: Particle, deltaTime: real, time: real, spread: real, speed: real,
                 d: IdleDraw): Particle
  {
    var floatingAngle := FloatingAngle(p, deltaTime, d.chaos);
    Eased(m, p, Target(m, p, time, spread, floatingAngle, d), deltaTime, spread, speed, d)
      .(floatingAngle := floatingAngle)
  }

  /**
   * The floating part of an idle tick changes only the floating angle and
   * the position: the angle becomes `FloatingAngle`, and the position is
   * the eased one towards the target at that angle.
   */
  lemma DriftFrame(m: MathLib, p: Particle, deltaTime: real, time: real, spread: real, speed: real,
                   d: IdleDraw)
    ensures var q := Drift(m, p, deltaTime, time, spread, speed, d);
            var floatingAngle := FloatingAngle(p, deltaTime, d.chaos);
            var eased := Eased(m, p, Target(m, p, time, spread, floatingAngle, d), deltaTime, spread, speed, d);
            q == p.(floatingAngle := floatingAngle, x := eased.x, y := eased.y)
  {
  }

  /**
   * The particle moves `4 * speed * deltaTime` of the way to `target`, plus
   * a jitter scaled down near the target.
   */
  function Eased(m: MathLib, p: Particle, target: (real, real), deltaTime: real, spread: real, speed: real,
                 d: IdleDraw): Particle
  {
    var jitterScale := JitterScale(m.sqrt(TargetDistance2(p, target)), spread);
    p.(x := Glide(p.x, target.0, speed, deltaTime) + Jitter(d.jitterX, speed, jitterScale),
       y := Glide(p.y, target.1, speed, deltaTime) + Jitter(d.jitterY, speed, jitterScale))
  }

  /** One coordinate moved `TRANSITION_SPEED * deltaTime` of the way to `aim`, with `TRANSITION_SPEED = 4 * speed`. */
  function Glide(start: real, aim: real, speed: real, deltaTime: real): real {
    var transitionSpeed := 4.0 * speed;
    start + (aim - start) * transitionSpeed * deltaTime
  }

  /** The floating angle after a tick, advanced at a rate stretched by a random `chaos` draw. */
  function FloatingAngle(p: Particle, deltaTime: real, chaos: real): real {
    p.floatingAngle + deltaTime * p.floatingSpeed * (1.0 + chaos * ChaosFactor)
  }

  /** The squared distance of a particle from a target point. */
  function TargetDistance2(p: Particle, target: (real, real)): real {
    (target.0 - p.x) * (target.0 - p.x) + (target.1 - p.y) * (target.1 - p.y)
  }

  /** The jitter on one axis for a random draw `r`. */
  function Jitter(r: real, speed: real, jitterScale: real): real {
    (r - 0.5) * speed * jitterScale * 0.5
  }

  /**
   * For a forward tick, the floating angle advances by `dt * floatingSpeed`
   * times a random factor in [1, 2.2).
   */
  lemma FloatingAngleAdvance(p: Particle, deltaTime: real, chaos: real)
    requires IsUnit(chaos) && 0.0 <= deltaTime && 0.0 <= p.floatingSpeed
    ensures var advance := FloatingAngle(p, deltaTime, chaos) - p.floatingAngle;
            var base := deltaTime * p.floatingSpeed;
            base <= advance <= 2.2 * base && (0.0 < base ==> advance < 2.2 * base)
  {
    var base := deltaTime * p.floatingSpeed;
    MulLeft(deltaTime, 0.0, p.floatingSpeed);
    var factor := 1.0 + chaos * ChaosFactor;
    assert 1.0 <= factor < 2.2;
    assert FloatingAngle(p, deltaTime, chaos) - p.floatingAngle == base * factor;
    Stretch(base, factor);
  }

  /** A non-negative base stretched by a factor in [1, 2.2). */
  lemma Stretch(base: real, factor: real)
    requires 0.0 <= base && 1.0 <= factor < 2.2
    ensures base <= base * factor <= 2.2 * base && (0.0 < base ==> base * factor < 2.2 * base)
  {
    MulLeft(base, 1.0, factor);
    MulLeft(base, factor, 2.2);
    if 0.0 < base {
      MulLeftStrict(base, factor, 2.2);
      assert factor * base == base * factor;
    }
  }

  /**
   * With `Math.sin` and `Math.cos` in [-1, 1], the noise lies within 1.44 on
   * the horizontal axis and 0.96 on the vertical one.
   */
  lemma NoiseBounds(m: MathLib, p: Particle, time: real, floatingAngle: real, d: IdleDraw)
    requires Bounded(m) && ValidIdleDraw(d)
    ensures var noise := Noise(m, p, time, floatingAngle, d);
            -1.44 <= noise.0 <= 1.44 && -0.96 <= noise.1 <= 0.96
  {
    var uniqueOffset := p.floatingSpeed * 1000.0;
    assert -1.0 <= m.sin(time * p.floatingSpeed + floatingAngle) <= 1.0;
    assert -1.0 <= m.sin((time + uniqueOffset) * 0.3) <= 1.0;
    assert -1.0 <= m.cos(time * p.floatingSpeed + floatingAngle * 1.2) <= 1.0;
    assert -1.0 <= m.cos((time + uniqueOffset) * 0.3) <= 1.0;
  }

  /**
   * The drift target stays in a box around home proportional to `spread`:
   * within 1.44 `spread` horizontally and 0.96 `spread` vertically.
   */
  lemma TargetNearHome(m: MathLib, p: Particle, time: real, spread: real, floatingAngle: real, d: IdleDraw)
    requires Bounded(m) && ValidIdleDraw(d) && 0.0 <= spread
    ensures var target := Target(m, p, time, spread, floatingAngle, d);
            Abs(target.0 - p.originalX) <= 1.44 * spread && Abs(target.1 - p.originalY) <= 0.96 * spread
  {
    var noise := Noise(m, p, time, floatingAngle, d);
    var target := Target(m, p, time, spread, floatingAngle, d);
    NoiseBounds(m, p, time, floatingAngle, d);
    ScaledWithin(spread, noise.0, 1.44, target.0 - p.originalX);
    ScaledWithin(spread, noise.1, 0.96, target.1 - p.originalY);
  }

  /** An offset of `c` times a quantity within `bound` of zero, for a non-negative `c`. */
  lemma ScaledWithin(c: real, v: real, bound: real, offset: real)
    requires 0.0 <= c && -bound <= v <= bound && offset == c * v
    ensures Abs(offset) <= bound * c
  {
    MulLeft(c, -bound, v);
    MulLeft(c, v, bound);
  }

  /**
   * Easing moves a particle `4 * speed * deltaTime` of the way to its
   * target, off by a jitter of at most a quarter of `speed` on each axis.
   */
  lemma EasedNearTarget(m: MathLib, p: Particle, target: (real, real), deltaTime: real, spread: real, speed: real,
                        d: IdleDraw)
    requires RootNonNegative(m) && ValidIdleDraw(d) && 0.0 <= spread
    ensures var q := Eased(m, p, target, deltaTime, spread, speed, d);
            Abs(q.x - Glide(p.x, target.0, speed, deltaTime)) <= 0.25 * Abs(speed) &&
            Abs(q.y - Glide(p.y, target.1, speed, deltaTime)) <= 0.25 * Abs(speed)
  {
    ScaledJitter(m, p, target, spread, speed, d.jitterX);
    ScaledJitter(m, p, target, spread, speed, d.jitterY);
  }

  /** The jitter towards a target is at most a quarter of `speed` in size. */
  lemma ScaledJitter(m: MathLib, p: Particle, target: (real, real), spread: real, speed: real, r: real)
    requires RootNonNegative(m) && IsUnit(r) && 0.0 <= spread
    ensures Abs(Jitter(r, speed, JitterScale(m.sqrt(TargetDistance2(p, target)), spread))) <= 0.25 * Abs(speed)
  {
    Square(target.0 - p.x);
    Square(target.1 - p.y);
    var distance := m.sqrt(TargetDistance2(p, target));
    JitterScaleUnit(distance, spread);
    JitterBound(r, speed, JitterScale(distance, spread));
  }

  /** For a non-negative distance and `spread`, the jitter scale lies in [0, 1]. */
  lemma JitterScaleUnit(distance: real, spread: real)
    requires 0.0 <= distance && 0.0 <= spread
    ensures 0.0 <= JitterScale(distance, spread) <= 1.0
  {
    if spread != 0.0 {
      assert 0.0 < spread * 1.5;
      assert 0.0 <= distance / (spread * 1.5);
    }
  }

  /** A jitter is at most a quarter of `speed` in size. */
  lemma JitterBound(r: real, speed: real, scale: real)
    requires IsUnit(r) && 0.0 <= scale <= 1.0
    ensures Abs(Jitter(r, speed, scale)) <= 0.25 * Abs(speed)
  {
    var u := (r - 0.5) * speed;
    var v := u * scale;
    assert Abs(u) <= 0.5 * Abs(speed) by {
      ProductBound(r - 0.5, speed, 0.5);
    }
    assert Abs(v) <= Abs(u) by {
      ProductBound(scale, u, 1.0);
    }
    assert Abs(v * 0.5) <= 0.5 * Abs(v) by {
      ProductBound(0.5, v, 0.5);
    }
    assert Jitter(r, speed, scale) == v * 0.5;
  }

  /** A factor of size at most `bound` scales a product's size by at most `bound`. */
  lemma ProductBound(a: real, b: real, bound: real)
    requires Abs(a) <= bound
    ensures Abs(a * b) <= bound * Abs(b) && Abs(b * a) <= bound * Abs(b)
  {
    assert a * b == b * a;
    if 0.0 <= b {
      MulLeft(b, Abs(a), bound);
      if a < 0.0 {
        assert Abs(a * b) == (-a) * b;
      }
    } else {
      MulLeft(-b, Abs(a), bound);
      if a < 0.0 {
        assert a * b == (-a) * (-b);
      } else {
        assert Abs(a * b) == a * (-b);
      }
    }
  }

  /**
   * The soft boundary: a particle further than `spread` from home is moved
   * towards home by 0.08 of the excess.  The direction `atan2` then `cos`
   * and `sin` give is the unit vector of the offset; for a zero offset
   * `atan2(0, 0)` is 0, whose cosine is 1 and sine 0.
   */
  function Contain(m: MathLib, p: Particle, spread: real): Particle {
    var distanceFromOrigin := m.sqrt(HomeDistance2(p));
    if distanceFromOrigin > spread then
      var pullBack := (distanceFromOrigin - spread) * 0.08;
      var ux := if distanceFromOrigin != 0.0 then (p.x - p.originalX) / distanceFromOrigin else 1.0;
      var uy := if distanceFromOrigin != 0.0 then (p.y - p.originalY) / distanceFromOrigin else 0.0;
      p.(x := p.x - ux * pullBack, y := p.y - uy * pullBack)
    else
      p
  }

  /** The soft boundary changes only the position. */
  lemma ContainFrame(m: MathLib, p: Particle, spread: real)
    ensures var q := Contain(m, p, spread); q == p.(x := q.x, y := q.y)
  {
  }

  /** A particle within `spread` of home is left where it is. */
  lemma ContainInside(m: MathLib, p: Particle, spread: real)
    requires ExactRoot(m) && 0.0 <= spread && HomeDistance2(p) <= spread * spread
    ensures Contain(m, p, spread) == p
  {
    var d := m.sqrt(HomeDistance2(p));
    if d > spread {
      SquareMonotoneStrict(spread, d);
      assert false;
    }
  }

  /**
   * A particle at distance d > `spread` from home ends at distance
   * 0.92 d + 0.08 `spread`: strictly closer than before, and still further
   * than `spread`.
   */
  lemma ContainPullsBack(m: MathLib, p: Particle, spread: real)
    requires ExactRoot(m) && 0.0 <= spread && HomeDistance2(p) > spread * spread
    ensures var d := m.sqrt(HomeDistance2(p));
            var e := 0.92 * d + 0.08 * spread;
            HomeDistance2(Contain(m, p, spread)) == e * e && spread < e < d
  {
    var d := m.sqrt(HomeDistance2(p));
    if d <= spread {
      SquareMonotone(d, spread);
      assert false;
    }
    RootOf(m, HomeDistance2(p));
    var pullBack := (d - spread) * 0.08;
    StepBack(p, Contain(m, p, spread), d, pullBack);
    assert d - pullBack == 0.92 * d + 0.08 * spread;
  }

  /**
   * A particle at distance d > 0 from home, moved s back along the unit
   * vector of its offset, ends at distance |d - s|.
   */
  lemma StepBack(p: Particle, q: Particle, d: real, s: real)
    requires 0.0 < d && d * d == HomeDistance2(p)
    requires q.originalX == p.originalX && q.originalY == p.originalY
    requires q.x == p.x - (p.x - p.originalX) / d * s && q.y == p.y - (p.y - p.originalY) / d * s
    ensures HomeDistance2(q) == (d - s) * (d - s)
  {
    var ax, ay := p.x - p.originalX, p.y - p.originalY;
    assert q.x - q.originalX == ax - ax / d * s;
    assert q.y - q.originalY == ay - ay / d * s;
    ShrinkOffset(ax, ay, d, s);
  }

  /** `opacity += (targetOpacity - opacity) * sparkleSpeed * deltaTime * 3`. */
  function Sparkle(p: Particle, deltaTime: real): Particle {
    var opacityDiff := p.targetOpacity - p.opacity;
    p.(opacity := p.opacity + opacityDiff * p.sparkleSpeed * deltaTime * 3.0)
  }

  /** The sparkle easing changes only the opacity. */
  lemma SparkleFrame(p: Particle, deltaTime: real)
    ensures var q := Sparkle(p, deltaTime); q == p.(opacity := q.opacity)
  {
  }

  /**
   * While the easing rate `sparkleSpeed * deltaTime * 3` is at most 1, the
   * opacity moves towards its target without passing it.
   */
  lemma SparkleEases(p: Particle, deltaTime: real)
    requires 0.0 <= p.sparkleSpeed * deltaTime * 3.0 <= 1.0
    ensures var o := Sparkle(p, deltaTime).opacity;
            (p.opacity <= p.targetOpacity ==> p.opacity <= o <= p.targetOpacity) &&
            (p.targetOpacity <= p.opacity ==> p.targetOpacity <= o <= p.opacity)
  {
    var rate := p.sparkleSpeed * deltaTime * 3.0;
    var diff := p.targetOpacity - p.opacity;
    assert Sparkle(p, deltaTime).opacity == p.opacity + diff * rate;
    if 0.0 <= diff {
      assert 0.0 <= diff * rate <= diff;
    } else {
      assert diff <= diff * rate <= 0.0;
    }
  }

  /** The particles whose colour a tick at `time` refreshes: index = floor(2 time) modulo 3. */
  predicate RecolourDue(index: nat, time: real) {
    index % 3 == RemInt(Floor(time * 2.0), 3)
  }

  /** The colour refresh of the particles `RecolourDue` selects. */
  function Recolour(m: MathLib, p: Particle, index: nat, time: real): Particle
    requires Bounded(m)
  {
    if RecolourDue(index, time) then
      var c := GenerateRainbowColor(m, p.hue, time, index);
      p.(hue := c.hue, saturation := c.saturation, lightness := c.lightness)
    else
      p
  }

  /**
   * The colour refresh changes only hue, saturation and lightness; a
   * particle that is not due keeps them, and a refreshed one gets a
   * saturation in [55, 85] and a lightness in [40, 70].
   */
  lemma RecolourFrame(m: MathLib, p: Particle, index: nat, time: real)
    requires Bounded(m)
    ensures var q := Recolour(m, p, index, time);
            q == p.(hue := q.hue, saturation := q.saturation, lightness := q.lightness) &&
            (!RecolourDue(index, time) ==> q == p) &&
            (RecolourDue(index, time) ==>
               -360.0 < q.hue < 360.0 && 55.0 <= q.saturation <= 85.0 && 40.0 <= q.lightness <= 70.0)
  {
  }

  /**
   * Three ticks whose `floor(2 time)` are consecutive non-negative integers
   * refresh every particle exactly once.
   */
  lemma RecolourRoundRobin(index: nat, k: nat, t0: real, t1: real, t2: real)
    requires Floor(t0 * 2.0) == k && Floor(t1 * 2.0) == k + 1 && Floor(t2 * 2.0) == k + 2
    ensures RecolourDue(index, t0) || RecolourDue(index, t1) || RecolourDue(index, t2)
    ensures !(RecolourDue(index, t0) && RecolourDue(index, t1))
    ensures !(RecolourDue(index, t1) && RecolourDue(index, t2))
    ensures !(RecolourDue(index, t0) && RecolourDue(index, t2))
  {
    var r := k % 3;
    assert (k + 1) % 3 == (r + 1) % 3;
    assert (k + 2) % 3 == (r + 2) % 3;
  }

  /**
   * Once the opacity is within 0.01 of its target (measured before easing),
   * a new target is drawn: with probability 0.4 below 0.15 of the pixel's
   * alpha, otherwise between 1.5 and 2.5 times it; the sparkle speed is
   * redrawn in [0.5, 2.5).
   */
  function Retarget(p: Particle, opacityDiff: real, d: IdleDraw): Particle {
    if Abs(opacityDiff) < 0.01 then
      p.(targetOpacity := if d.coin < 0.4 then d.level * 0.15 * p.originalAlpha
                          else p.originalAlpha * (1.5 + d.level * 1.0),
         sparkleSpeed := d.sparkle * 2.0 + 0.5)
    else
      p
  }

  /**
   * Retargeting changes only the target opacity and the sparkle speed, and
   * nothing at all unless the opacity was within 0.01 of its target.
   */
  lemma RetargetFrame(p: Particle, opacityDiff: real, d: IdleDraw)
    ensures var q := Retarget(p, opacityDiff, d);
            q == p.(targetOpacity := q.targetOpacity, sparkleSpeed := q.sparkleSpeed) &&
            (0.01 <= Abs(opacityDiff) ==> q == p)
  {
  }

  /** The ranges of a freshly drawn target opacity and sparkle speed. */
  lemma RetargetRanges(p: Particle, opacityDiff: real, d: IdleDraw)
    requires ValidIdleDraw(d) && 0.0 < p.originalAlpha && Abs(opacityDiff) < 0.01
    ensures d.coin < 0.4 ==>
              0.0 <= Retarget(p, opacityDiff, d).targetOpacity < 0.15 * p.originalAlpha
    ensures 0.4 <= d.coin ==>
              1.5 * p.originalAlpha <= Retarget(p, opacityDiff, d).targetOpacity < 2.5 * p.originalAlpha
    ensures 0.5 <= Retarget(p, opacityDiff, d).sparkleSpeed < 2.5
  {
    var q := Retarget(p, opacityDiff, d);
    if d.coin < 0.4 {
      LowTarget(d.level, p.originalAlpha, q.targetOpacity);
    } else {
      HighTarget(d.level, p.originalAlpha, q.targetOpacity);
    }
  }

  lemma LowTarget(level: real, oa: real, t: real)
    requires 0.0 <= level < 1.0 && 0.0 < oa && t == level * 0.15 * oa
    ensures 0.0 <= t < 0.15 * oa
  {
    MulLeftStrict(oa, level, 1.0);
    assert 0.0 <= level * oa;
  }

  lemma HighTarget(level: real, oa: real, t: real)
    requires 0.0 <= level < 1.0 && 0.0 < oa && t == oa * (1.5 + level * 1.0)
    ensures 1.5 * oa <= t < 2.5 * oa
  {
    MulLeftStrict(oa, level, 1.0);
    assert 0.0 <= level * oa;
  }

  /** One idle tick of particle number `index`. */
  function IdleStep(m: MathLib, p: Particle, index: nat, deltaTime: real, time: real,
                    spread: real, speed: real, d: IdleDraw): Particle
    requires Bounded(m)
  {
    var moved := Contain(m, Drift(m, p, deltaTime, time, spread, speed, d), spread);
    var opacityDiff := moved.targetOpacity - moved.opacity;
    Retarget(Recolour(m, Sparkle(moved, deltaTime), index, time), opacityDiff, d)
  }

  /** One tick of particle number `index`, in the mode `isHovered` selects. */
  function Tick(m: MathLib, p: Particle, index: nat, deltaTime: real, isHovered: bool, time: real,
                spread: real, speed: real, d: IdleDraw): Particle
    requires Bounded(m)
  {
    if isHovered then HoverStep(m, p, deltaTime)
    else IdleStep(m, p, index, deltaTime, time, spread, speed, d)
  }

  /** No tick ever changes a particle's home, colour or pixel alpha. */
  lemma TickKeepsIdentity(m: MathLib, p: Particle, index: nat, deltaTime: real, isHovered: bool,
                          time: real, spread: real, speed: real, d: IdleDraw)
    requires Bounded(m)
    ensures SameIdentity(p, Tick(m, p, index, deltaTime, isHovered, time, spread, speed, d))
  {
    if !isHovered {
      var drifted := Drift(m, p, deltaTime, time, spread, speed, d);
      assert SameIdentity(p, drifted);
      var moved := Contain(m, drifted, spread);
      assert SameIdentity(p, moved);
      var sparkled := Sparkle(moved, deltaTime);
      var recoloured := Recolour(m, sparkled, index, time);
      assert SameIdentity(p, recoloured);
    }
  }

  /** Every particle after one tick. */
  function TickAll(m: MathLib, ps: seq<Particle>, deltaTime: real, isHovered: bool, time: real,
                   spread: real, speed: real, draws: nat -> IdleDraw): (r: seq<Particle>)
    requires Bounded(m)
    ensures |r| == |ps|
  {
    seq(|ps|, i requires 0 <= i < |ps| => Tick(m, ps[i], i, deltaTime, isHovered, time, spread, speed, draws(i)))
  }

  /**
   * The `showText` latch after a tick: `setShowText` is called only when
   * the flag disagrees with `isHovered`, so afterwards the two agree.
   */
  function ShowTextAfterTick(isHovered: bool, showText: bool): (r: bool)
    ensures r == isHovered
    ensures r != showText ==> showText != isHovered
  {
    if isHovered && !showText then true
    else if !isHovered && showText then false
    else showText
  }

  /**
   * `updateParticles` on the particle array: every particle takes one tick
   * in place, in index order, and the new `showText` is returned.
   */
  method UpdateParticles(m: MathLib, particles: array<Particle>, deltaTime: real, isHovered: bool,
                         showText: bool, spread: real, speed: real, time: real, draws: nat -> IdleDraw)
    returns (newShowText: bool)
    requires Bounded(m)
    modifies particles
    ensures particles[..] == TickAll(m, old(particles[..]), deltaTime, isHovered, time, spread, speed, draws)
    ensures newShowText == isHovered
  {
    ghost var after := TickAll(m, particles[..], deltaTime, isHovered, time, spread, speed, draws);
    ghost var before := particles[..];
    var index := 0;
    while index < particles.Length
      invariant 0 <= index <= particles.Length
      invariant forall i :: 0 <= i < index ==> particles[i] == after[i]
      invariant forall i :: index <= i < particles.Length ==> particles[i] == before[i]
    {
      particles[index] := Tick(m, particles[index], index, deltaTime, isHovered, time, spread, speed, draws(index));
      index := index + 1;
    }
    assert particles[..] == after;
    newShowText := ShowTextAfterTick(isHovered, showText);
  }

  /** A hover tick keeps home every particle that is home, and leaves no opacity negative. */
  lemma HoverTickAll(m: MathLib, ps: seq<Particle>, deltaTime: real, time: real,
                     spread: real, speed: real, draws: nat -> IdleDraw)
    requires Bounded(m) && ExactRoot(m)
    ensures var r := TickAll(m, ps, deltaTime, true, time, spread, speed, draws);
            forall i :: 0 <= i < |ps| ==>
              SameIdentity(ps[i], r[i]) && 0.0 <= r[i].opacity &&
              (AtHome(ps[i]) ==> AtHome(r[i]))
  {
    var r := TickAll(m, ps, deltaTime, true, time, spread, speed, draws);
    forall i | 0 <= i < |ps|
      ensures SameIdentity(ps[i], r[i]) && 0.0 <= r[i].opacity && (AtHome(ps[i]) ==> AtHome(r[i]))
    {
      assert r[i] == Tick(m, ps[i], i, deltaTime, true, time, spread, speed, draws(i));
      HoverFades(m, ps[i], deltaTime);
      if AtHome(ps[i]) {
        HoverSnapsHome(m, ps[i], deltaTime);
      }
    }
  }
}
