/**
 * The particle sampler (`createParticles`): the text has been drawn onto a
 * canvas of `width` x `height` pixels and read back as a row-major RGBA byte
 * raster.  A first pass over the stride lattice finds the box of pixels with
 * non-zero alpha; a second pass emits one particle per such pixel, scattered
 * around it by at most 0.16 times the larger side of the box.
 */
module Sampler {
  import opened JsMath
  import opened Colour
  import opened Particles

  /** `transformedDensity`: the `density` prop turned into a step factor. */
  function TransformedDensity(density: int): int {
    MaxInt(2, 6 - density)
  }

  /** `sampleRate`: the pixel stride of both passes. */
  function SampleRate(transformedDensity: int): int {
    MaxInt(3, transformedDensity * 2)
  }

  /**
   * The stride the widget samples with for a given `density`: 12 - 2 * density
   * up to density 4, and 4 from there on.
   */
  function Stride(density: int): (s: int)
    ensures s >= 4 && s % 2 == 0
    ensures s == if density >= 4 then 4 else 12 - 2 * density
  {
    SampleRate(TransformedDensity(density))
  }

  /** Raising the density never coarsens the sampling lattice. */
  lemma StrideAntitone(lower: int, higher: int)
    requires lower <= higher
    ensures Stride(higher) <= Stride(lower)
  {
  }

  // ---------------------------------------------------------------------
  // The raster and its lattice

  /** The raster `getImageData` returns for a `width` x `height` canvas. */
  predicate IsRaster(data: seq<byte>, width: nat, height: nat) {
    |data| == width * height * 4
  }

  lemma PixelInRaster(width: nat, height: nat, x: nat, y: nat)
    requires x < width && y < height
    ensures (y * width + x) * 4 + 3 < width * height * 4
  {
    assert y * width + x < (y + 1) * width;
    assert (y + 1) * width <= height * width;
  }

  /** The alpha byte `data[(y * width + x) * 4 + 3]` of pixel (x, y). */
  function AlphaAt(data: seq<byte>, width: nat, height: nat, x: nat, y: nat): byte
    requires IsRaster(data, width, height) && x < width && y < height
  {
    PixelInRaster(width, height, x, y);
    data[(y * width + x) * 4 + 3]
  }

  /** A point both loops visit: inside the canvas and on the stride lattice. */
  predicate OnLattice(width: nat, height: nat, rate: nat, p: Point)
    requires 0 < rate
  {
    p.x < width && p.y < height && p.x % rate == 0 && p.y % rate == 0
  }

  /** A lattice point covered by the text: its alpha byte is positive. */
  predicate Inked(data: seq<byte>, width: nat, height: nat, rate: nat, p: Point)
    requires IsRaster(data, width, height) && 0 < rate
  {
    OnLattice(width, height, rate, p) && AlphaAt(data, width, height, p.x, p.y) > 0
  }

  /** Row-major order: `p` is visited strictly before `q`. */
  predicate Before(p: Point, q: Point) {
    p.y < q.y || (p.y == q.y && p.x < q.x)
  }

  /** `p` is visited at or after the loop position (x, y). */
  predicate NotBefore(p: Point, x: nat, y: nat) {
    p.y > y || (p.y == y && p.x >= x)
  }

  /**
   * The inked lattice points the nested loops meet from position (x, y) on,
   * in the order they meet them.
   */
  function InkedFrom(data: seq<byte>, width: nat, height: nat, rate: nat, x: nat, y: nat): (r: seq<Point>)
    requires IsRaster(data, width, height) && 0 < rate
    decreases height - y, width - x
  {
    if y >= height then []
    else if x >= width then InkedFrom(data, width, height, rate, 0, y + rate)
    else
      var rest := InkedFrom(data, width, height, rate, x + rate, y);
      if AlphaAt(data, width, height, x, y) > 0 then [Point(x, y)] + rest else rest
  }

  /** Every inked lattice point, in row-major order. */
  function Inked0(data: seq<byte>, width: nat, height: nat, rate: nat): seq<Point>
    requires IsRaster(data, width, height) && 0 < rate
  {
    InkedFrom(data, width, height, rate, 0, 0)
  }

  lemma {:induction false} MulAtLeast(k: int, r: int)
    requires k >= 1 && r > 0
    ensures k * r >= r
    decreases k
  {
    if k > 1 {
      MulAtLeast(k - 1, r);
      assert k * r == (k - 1) * r + r;
    }
  }

  /** Quotient and remainder are unique. */
  lemma DivModUnique(a: int, rate: int, q: int, r: int)
    requires 0 < rate && a == q * rate + r && 0 <= r < rate
    ensures a % rate == r && a / rate == q
  {
    var q', r' := a / rate, a % rate;
    assert a == q' * rate + r';
    assert (q - q') * rate == r' - r;
    if q - q' >= 1 {
      MulAtLeast(q - q', rate);
      assert false;
    } else if q' - q >= 1 {
      MulAtLeast(q' - q, rate);
      assert false;
    }
  }

  /** One stride from a lattice point is again a lattice point. */
  lemma StepOnLattice(x: nat, rate: nat)
    requires 0 < rate && x % rate == 0
    ensures (x + rate) % rate == 0
  {
    DivModUnique(x + rate, rate, x / rate + 1, 0);
  }

  lemma ZeroOnLattice(rate: nat)
    requires 0 < rate
    ensures 0 % rate == 0
  {
    DivModUnique(0, rate, 0, 0);
  }

  /** Distinct multiples of the stride are at least a stride apart. */
  lemma NextMultiple(a: nat, b: nat, rate: nat)
    requires 0 < rate && a % rate == 0 && b % rate == 0 && a < b
    ensures a + rate <= b
  {
    var i, j := a / rate, b / rate;
    assert b - a == (j - i) * rate;
    if j - i < 1 {
      MulAtLeast(1 - (j - i), rate);
    } else {
      MulAtLeast(j - i, rate);
    }
  }

  /** Every inked lattice point the loops still have ahead of them is emitted. */
  lemma {:induction false} InkedFromComplete(data: seq<byte>, width: nat, height: nat, rate: nat, x: nat, y: nat, p: Point)
    requires IsRaster(data, width, height) && 0 < rate
    requires x % rate == 0 && y % rate == 0
    requires Inked(data, width, height, rate, p) && NotBefore(p, x, y)
    ensures p in InkedFrom(data, width, height, rate, x, y)
    decreases height - y, width - x
  {
    if y >= height {
    } else if x >= width {
      NextMultiple(y, p.y, rate);
      StepOnLattice(y, rate);
      ZeroOnLattice(rate);
      InkedFromComplete(data, width, height, rate, 0, y + rate, p);
    } else if p != Point(x, y) {
      if p.y == y {
        NextMultiple(x, p.x, rate);
      }
      StepOnLattice(x, rate);
      InkedFromComplete(data, width, height, rate, x + rate, y, p);
    }
  }

  /** Every point the loops emit from (x, y) on is an inked lattice point at or after (x, y). */
  lemma {:induction false} InkedFromSound(data: seq<byte>, width: nat, height: nat, rate: nat, x: nat, y: nat)
    requires IsRaster(data, width, height) && 0 < rate
    requires x % rate == 0 && y % rate == 0
    ensures forall p :: p in InkedFrom(data, width, height, rate, x, y) ==>
              Inked(data, width, height, rate, p) && NotBefore(p, x, y)
    decreases height - y, width - x
  {
    if y >= height {
    } else if x >= width {
      StepOnLattice(y, rate);
      ZeroOnLattice(rate);
      InkedFromSound(data, width, height, rate, 0, y + rate);
    } else {
      StepOnLattice(x, rate);
      InkedFromSound(data, width, height, rate, x + rate, y);
    }
  }

  /** Strictly increasing in row-major order, so free of repetitions. */
  predicate RowMajor(ps: seq<Point>) {
    forall i, j :: 0 <= i < j < |ps| ==> Before(ps[i], ps[j])
  }

  lemma ConsRowMajor(p: Point, rest: seq<Point>)
    requires RowMajor(rest) && forall q :: q in rest ==> Before(p, q)
    ensures RowMajor([p] + rest)
  {
    var ps := [p] + rest;
    forall i, j | 0 <= i < j < |ps| ensures Before(ps[i], ps[j]) {
      assert ps[j] == rest[j - 1];
      if i > 0 {
        assert ps[i] == rest[i - 1];
      }
    }
  }

  /** The loops emit points in strictly increasing row-major order. */
  lemma {:induction false} InkedFromSorted(data: seq<byte>, width: nat, height: nat, rate: nat, x: nat, y: nat)
    requires IsRaster(data, width, height) && 0 < rate
    requires x % rate == 0 && y % rate == 0
    ensures RowMajor(InkedFrom(data, width, height, rate, x, y))
    decreases height - y, width - x
  {
    if y >= height {
    } else if x >= width {
      StepOnLattice(y, rate);
      ZeroOnLattice(rate);
      InkedFromSorted(data, width, height, rate, 0, y + rate);
    } else {
      StepOnLattice(x, rate);
      InkedFromSorted(data, width, height, rate, x + rate, y);
      InkedFromSound(data, width, height, rate, x + rate, y);
      var rest := InkedFrom(data, width, height, rate, x + rate, y);
      if AlphaAt(data, width, height, x, y) > 0 {
        ConsRowMajor(Point(x, y), rest);
      }
    }
  }

  // ---------------------------------------------------------------------
  // First pass: the text's bounding box

  /** The `minX`, `maxX`, `minY`, `maxY` accumulators of the first pass. */
  datatype Bounds = Bounds(minX: int, maxX: int, minY: int, maxY: int)

  /** The accumulators' starting values: an inverted, empty box. */
  function InitialBounds(width: nat, height: nat): Bounds {
    Bounds(width, 0, height, 0)
  }

  function Extend(b: Bounds, p: Point): Bounds {
    Bounds(MinInt(b.minX, p.x), MaxInt(b.maxX, p.x), MinInt(b.minY, p.y), MaxInt(b.maxY, p.y))
  }

  /** The accumulators after folding `Extend` over `ps`, left to right. */
  function FoldBounds(b: Bounds, ps: seq<Point>): Bounds
    decreases |ps|
  {
    if ps == [] then b else FoldBounds(Extend(b, ps[0]), ps[1..])
  }

  predicate Inside(b: Bounds, p: Point) {
    b.minX <= p.x <= b.maxX && b.minY <= p.y <= b.maxY
  }

  /** The box the first pass computes. */
  function TextBounds(data: seq<byte>, width: nat, height: nat, rate: nat): Bounds
    requires IsRaster(data, width, height) && 0 < rate
  {
    FoldBounds(InitialBounds(width, height), Inked0(data, width, height, rate))
  }

  /** `spreadRadius`: 0.16 times the larger side of the box. */
  function SpreadRadius(b: Bounds): real {
    MaxInt(b.maxX - b.minX, b.maxY - b.minY) as real * 0.16
  }

  /** The fold only widens the box: whatever was inside stays inside. */
  lemma {:induction false} FoldKeepsInside(b: Bounds, ps: seq<Point>, q: Point)
    requires Inside(b, q)
    ensures Inside(FoldBounds(b, ps), q)
    decreases |ps|
  {
    if ps != [] {
      FoldKeepsInside(Extend(b, ps[0]), ps[1..], q);
    }
  }

  /** Every folded point lies inside the resulting box. */
  lemma {:induction false} FoldCovers(b: Bounds, ps: seq<Point>)
    ensures forall p :: p in ps ==> Inside(FoldBounds(b, ps), p)
    decreases |ps|
  {
    if ps != [] {
      FoldCovers(Extend(b, ps[0]), ps[1..]);
      FoldKeepsInside(Extend(b, ps[0]), ps[1..], ps[0]);
      assert forall p :: p in ps ==> p == ps[0] || p in ps[1..];
    }
  }

  // ---------------------------------------------------------------------
  // Second pass: the particles

  /** The `Math.random()` draws made for one new particle, each in [0, 1). */
  datatype SpawnDraw = SpawnDraw(
    angle: real,
    distance: real,
    baseHue: real,
    heading: real,
    floatingSpeed: real,
    floatingAngle: real,
    targetOpacity: real,
    sparkleSpeed: real)

  predicate ValidSpawnDraw(d: SpawnDraw) {
    IsUnit(d.angle) && IsUnit(d.distance) && IsUnit(d.baseHue) && IsUnit(d.heading) &&
    IsUnit(d.floatingSpeed) && IsUnit(d.floatingAngle) && IsUnit(d.targetOpacity) && IsUnit(d.sparkleSpeed)
  }

  /** The four channels of one raster pixel. */
  datatype Pixel = Pixel(r: byte, g: byte, b: byte, a: byte)

  /**
   * Byte `k` of the raster.  An index past the end reads as 0, as the
   * `undefined` a typed array yields there fails every `> 0` test.
   */
  function ByteAt(data: seq<byte>, k: int): byte {
    if 0 <= k < |data| then data[k] else 0
  }

  /** The pixel at `p`, read from `data[(p.y * width + p.x) * 4]` on. */
  function PixelAt(data: seq<byte>, width: nat, p: Point): Pixel {
    var i := (p.y * width + p.x) * 4;
    Pixel(ByteAt(data, i), ByteAt(data, i + 1), ByteAt(data, i + 2), ByteAt(data, i + 3))
  }

  /** The particle emitted for a pixel `px` at inked point `p` as the `index`-th particle. */
  function Spawn(m: MathLib, px: Pixel, p: Point, index: nat, spreadRadius: real, d: SpawnDraw): Particle
    requires Bounded(m)
  {
    var originalAlpha := px.a as real / 255.0;
    var angle := d.angle * PI * 2.0;
    var distance := d.distance * spreadRadius;
    var c := GenerateRainbowColor(m, d.baseHue * 360.0, 0.0, index);
    Particle(
      x := p.x as real + m.cos(angle) * distance,
      y := p.y as real + m.sin(angle) * distance,
      originalX := p.x as real,
      originalY := p.y as real,
      color := Rgba(px.r as int, px.g as int, px.b as int, originalAlpha),
      opacity := originalAlpha * 0.3,
      originalAlpha := originalAlpha,
      velocityX := 0.0,
      velocityY := 0.0,
      angle := d.heading * PI * 2.0,
      speed := 0.0,
      floatingOffsetX := 0.0,
      floatingOffsetY := 0.0,
      floatingSpeed := d.floatingSpeed * 1.5 + 0.5,
      floatingAngle := d.floatingAngle * PI * 2.0,
      targetOpacity := d.targetOpacity * originalAlpha * 0.6,
      sparkleSpeed := d.sparkleSpeed * 1.5 + 0.5,
      hue := c.hue,
      saturation := c.saturation,
      lightness := c.lightness)
  }

  /** The rule of the second pass: `Spawn` with the index's own random draws. */
  function Spawner(m: MathLib, data: seq<byte>, width: nat, spreadRadius: real,
                   rnd: nat -> SpawnDraw): (spawn: (Point, nat) -> Particle)
    requires Bounded(m)
  {
    (p: Point, i: nat) => Spawn(m, PixelAt(data, width, p), p, i, spreadRadius, rnd(i))
  }

  /** One step of the inner loop of the second pass, for the pixel read at (x, y). */
  lemma EmitStep(m: MathLib, data: seq<byte>, width: nat, height: nat, rate: nat, spreadRadius: real,
                 rnd: nat -> SpawnDraw, acc: seq<Particle>, x: nat, y: nat, pixel: Pixel)
    requires Bounded(m) && IsRaster(data, width, height) && 0 < rate && x < width && y < height
    requires pixel == PixelAt(data, width, Point(x, y)) && pixel.a == AlphaAt(data, width, height, x, y)
    ensures var spawn := Spawner(m, data, width, spreadRadius, rnd);
            SpawnFrom(data, width, height, rate, spawn, acc, x, y) ==
            if pixel.a > 0
            then SpawnFrom(data, width, height, rate, spawn,
                           acc + [Spawn(m, pixel, Point(x, y), |acc|, spreadRadius, rnd(|acc|))], x + rate, y)
            else SpawnFrom(data, width, height, rate, spawn, acc, x + rate, y)
  {
    var spawn := Spawner(m, data, width, spreadRadius, rnd);
    SpawnFromStep(data, width, height, rate, spawn, acc, x, y);
    SpawnerAt(m, data, width, spreadRadius, rnd, Point(x, y), |acc|);
  }

  lemma SpawnerAt(m: MathLib, data: seq<byte>, width: nat, spreadRadius: real, rnd: nat -> SpawnDraw,
                  p: Point, i: nat)
    requires Bounded(m)
    ensures Spawner(m, data, width, spreadRadius, rnd)(p, i) == Spawn(m, PixelAt(data, width, p), p, i, spreadRadius, rnd(i))
  {
  }

  /**
   * The particles the second pass has pushed once its loops have run from
   * (x, y) to the end, starting from the particles `acc` already pushed.
   */
  function SpawnFrom(data: seq<byte>, width: nat, height: nat, rate: nat,
                     spawn: (Point, nat) -> Particle, acc: seq<Particle>, x: nat, y: nat): seq<Particle>
    requires IsRaster(data, width, height) && 0 < rate
    decreases height - y, width - x
  {
    if y >= height then acc
    else if x >= width then SpawnFrom(data, width, height, rate, spawn, acc, 0, y + rate)
    else if AlphaAt(data, width, height, x, y) > 0 then
      SpawnFrom(data, width, height, rate, spawn, acc + [spawn(Point(x, y), |acc|)], x + rate, y)
    else SpawnFrom(data, width, height, rate, spawn, acc, x + rate, y)
  }

  /** One step of the inner loop of the second pass. */
  lemma SpawnFromStep(data: seq<byte>, width: nat, height: nat, rate: nat,
                      spawn: (Point, nat) -> Particle, acc: seq<Particle>, x: nat, y: nat)
    requires IsRaster(data, width, height) && 0 < rate && x < width && y < height
    ensures SpawnFrom(data, width, height, rate, spawn, acc, x, y) ==
            if AlphaAt(data, width, height, x, y) > 0
            then SpawnFrom(data, width, height, rate, spawn, acc + [spawn(Point(x, y), |acc|)], x + rate, y)
            else SpawnFrom(data, width, height, rate, spawn, acc, x + rate, y)
  {
  }

  /** The particles of the second pass, for a given spread radius. */
  function SpawnInked(m: MathLib, data: seq<byte>, width: nat, height: nat, rate: nat,
                      spreadRadius: real, rnd: nat -> SpawnDraw): seq<Particle>
    requires Bounded(m) && IsRaster(data, width, height) && 0 < rate
  {
    SpawnFrom(data, width, height, rate, Spawner(m, data, width, spreadRadius, rnd), [], 0, 0)
  }

  /** The particles `createParticles` returns. */
  function Sampled(m: MathLib, data: seq<byte>, width: nat, height: nat, rate: nat,
                   rnd: nat -> SpawnDraw): seq<Particle>
    requires Bounded(m) && IsRaster(data, width, height) && 0 < rate
  {
    SpawnInked(m, data, width, height, rate, SpreadRadius(TextBounds(data, width, height, rate)), rnd)
  }

  /** The particles spawned for `ps`, numbered from `index` on. */
  function SpawnList(spawn: (Point, nat) -> Particle, ps: seq<Point>, index: nat): seq<Particle>
    decreases |ps|
  {
    if ps == [] then []
    else [spawn(ps[0], index)] + SpawnList(spawn, ps[1..], index + 1)
  }

  /** The i-th particle of `SpawnList` is spawned for the i-th point with index `index` + i. */
  lemma {:induction false} SpawnListAt(spawn: (Point, nat) -> Particle, ps: seq<Point>, index: nat, i: nat)
    requires i < |ps|
    ensures |SpawnList(spawn, ps, index)| == |ps|
    ensures SpawnList(spawn, ps, index)[i] == spawn(ps[i], index + i)
    decreases |ps|
  {
    if i > 0 {
      SpawnListAt(spawn, ps[1..], index + 1, i - 1);
      assert ps[1..][i - 1] == ps[i];
      assert index + 1 + (i - 1) == index + i;
    } else if |ps| > 1 {
      SpawnListAt(spawn, ps[1..], index + 1, 0);
    }
  }

  /** Pushing the particle of `p` and then those of `rest` spawns the particles of [p] + rest. */
  lemma {:induction false} SpawnListCons(spawn: (Point, nat) -> Particle, acc: seq<Particle>, p: Point, rest: seq<Point>)
    ensures (acc + [spawn(p, |acc|)]) + SpawnList(spawn, rest, |acc| + 1)
            == acc + SpawnList(spawn, [p] + rest, |acc|)
  {
    var ps := [p] + rest;
    assert ps[1..] == rest;
    var x := spawn(p, |acc|);
    var tail := SpawnList(spawn, rest, |acc| + 1);
    assert SpawnList(spawn, ps, |acc|) == [x] + tail;
    assert (acc + [x]) + tail == acc + ([x] + tail);
  }

  /**
   * The second pass keeps the particles already pushed and appends the ones
   * spawned for the inked points still ahead, numbered on from |acc|.
   */
  lemma {:induction false} SpawnFromShape(data: seq<byte>, width: nat, height: nat, rate: nat,
                                          spawn: (Point, nat) -> Particle, acc: seq<Particle>, x: nat, y: nat)
    requires IsRaster(data, width, height) && 0 < rate
    ensures SpawnFrom(data, width, height, rate, spawn, acc, x, y)
            == acc + SpawnList(spawn, InkedFrom(data, width, height, rate, x, y), |acc|)
    decreases height - y, width - x
  {
    if y >= height {
    } else if x >= width {
      SpawnFromShape(data, width, height, rate, spawn, acc, 0, y + rate);
    } else {
      SpawnFromStep(data, width, height, rate, spawn, acc, x, y);
      InkedFromStep(data, width, height, rate, x, y);
      if AlphaAt(data, width, height, x, y) > 0 {
        var particle := spawn(Point(x, y), |acc|);
        SpawnFromShape(data, width, height, rate, spawn, acc + [particle], x + rate, y);
        SpawnListCons(spawn, acc, Point(x, y), InkedFrom(data, width, height, rate, x + rate, y));
      } else {
        SpawnFromShape(data, width, height, rate, spawn, acc, x + rate, y);
      }
    }
  }

  /** One step of the inner loop, as the list of inked points sees it. */
  lemma InkedFromStep(data: seq<byte>, width: nat, height: nat, rate: nat, x: nat, y: nat)
    requires IsRaster(data, width, height) && 0 < rate && x < width && y < height
    ensures InkedFrom(data, width, height, rate, x, y) ==
            if AlphaAt(data, width, height, x, y) > 0
            then [Point(x, y)] + InkedFrom(data, width, height, rate, x + rate, y)
            else InkedFrom(data, width, height, rate, x + rate, y)
  {
  }

  /** The pixel a particle was sampled from. */
  predicate HomeAt(q: Particle, p: Point) {
    q.originalX == p.x as real && q.originalY == p.y as real
  }

  /**
   * The sampler emits exactly one particle per inked lattice point: the i-th
   * particle is the one spawned for the i-th inked point in row-major order,
   * with index i and the i-th batch of random draws.
   */
  lemma SpawnInkedShape(m: MathLib, data: seq<byte>, width: nat, height: nat, rate: nat,
                        spreadRadius: real, rnd: nat -> SpawnDraw)
    requires Bounded(m) && IsRaster(data, width, height) && 0 < rate
    ensures var r := SpawnInked(m, data, width, height, rate, spreadRadius, rnd);
            var ps := Inked0(data, width, height, rate);
            |r| == |ps| &&
            forall i :: 0 <= i < |r| ==>
              Inked(data, width, height, rate, ps[i]) &&
              r[i] == Spawn(m, PixelAt(data, width, ps[i]), ps[i], i, spreadRadius, rnd(i))
  {
    var spawn := Spawner(m, data, width, spreadRadius, rnd);
    var ps := Inked0(data, width, height, rate);
    SpawnFromShape(data, width, height, rate, spawn, [], 0, 0);
    assert [] + SpawnList(spawn, ps, 0) == SpawnList(spawn, ps, 0);
    ZeroOnLattice(rate);
    InkedFromSound(data, width, height, rate, 0, 0);
    var r := SpawnInked(m, data, width, height, rate, spreadRadius, rnd);
    assert r == SpawnList(spawn, ps, 0);
    if ps != [] {
      SpawnListAt(spawn, ps, 0, 0);
    }
    forall i | 0 <= i < |ps|
      ensures Inked(data, width, height, rate, ps[i])
      ensures r[i] == Spawn(m, PixelAt(data, width, ps[i]), ps[i], i, spreadRadius, rnd(i))
    {
      assert ps[i] in ps;
      SpawnListAt(spawn, ps, 0, i);
    }
  }

  /** The i-th particle sits, by its home coordinates, on the i-th inked point. */
  lemma SpawnInkedHomes(m: MathLib, data: seq<byte>, width: nat, height: nat, rate: nat,
                        spreadRadius: real, rnd: nat -> SpawnDraw)
    requires Bounded(m) && IsRaster(data, width, height) && 0 < rate
    ensures var r := SpawnInked(m, data, width, height, rate, spreadRadius, rnd);
            var ps := Inked0(data, width, height, rate);
            |r| == |ps| &&
            forall i :: 0 <= i < |r| ==> Inked(data, width, height, rate, ps[i]) && HomeAt(r[i], ps[i])
  {
    SpawnInkedShape(m, data, width, height, rate, spreadRadius, rnd);
    var r := SpawnInked(m, data, width, height, rate, spreadRadius, rnd);
    var ps := Inked0(data, width, height, rate);
    forall i | 0 <= i < |r|
      ensures HomeAt(r[i], ps[i])
    {
      var q := Spawn(m, PixelAt(data, width, ps[i]), ps[i], i, spreadRadius, rnd(i));
      assert r[i] == q;
      assert q.originalX == ps[i].x as real && q.originalY == ps[i].y as real;
    }
  }

  /**
   * Every inked lattice point is some particle's home, and the homes
   * strictly increase in row-major order, so no pixel gets two particles.
   */
  lemma OneParticlePerInkedPixel(m: MathLib, data: seq<byte>, width: nat, height: nat, rate: nat,
                                 spreadRadius: real, rnd: nat -> SpawnDraw)
    requires Bounded(m) && IsRaster(data, width, height) && 0 < rate
    ensures var r := SpawnInked(m, data, width, height, rate, spreadRadius, rnd);
            (forall p :: Inked(data, width, height, rate, p) ==> exists i :: 0 <= i < |r| && HomeAt(r[i], p)) &&
            (forall i, j :: 0 <= i < j < |r| ==>
               r[i].originalY < r[j].originalY || (r[i].originalY == r[j].originalY && r[i].originalX < r[j].originalX))
  {
    SpawnInkedHomes(m, data, width, height, rate, spreadRadius, rnd);
    var r := SpawnInked(m, data, width, height, rate, spreadRadius, rnd);
    var ps := Inked0(data, width, height, rate);
    ZeroOnLattice(rate);
    forall p | Inked(data, width, height, rate, p)
      ensures exists i :: 0 <= i < |r| && HomeAt(r[i], p)
    {
      InkedFromComplete(data, width, height, rate, 0, 0, p);
      var i :| 0 <= i < |ps| && ps[i] == p;
      assert HomeAt(r[i], p);
    }
    InkedFromSorted(data, width, height, rate, 0, 0);
    forall i, j | 0 <= i < j < |r|
      ensures r[i].originalY < r[j].originalY || (r[i].originalY == r[j].originalY && r[i].originalX < r[j].originalX)
    {
      assert Before(ps[i], ps[j]);
    }
  }

  /** A raster with no ink yields no particles. */
  lemma BlankRasterNoParticles(m: MathLib, data: seq<byte>, width: nat, height: nat, rate: nat,
                               rnd: nat -> SpawnDraw)
    requires Bounded(m) && IsRaster(data, width, height) && 0 < rate
    requires forall k :: 0 <= k < |data| && k % 4 == 3 ==> data[k] == 0
    ensures Sampled(m, data, width, height, rate, rnd) == []
  {
    var sr := SpreadRadius(TextBounds(data, width, height, rate));
    SpawnInkedShape(m, data, width, height, rate, sr, rnd);
    var ps := Inked0(data, width, height, rate);
    if ps != [] {
      var p := ps[0];
      PixelInRaster(width, height, p.x, p.y);
      var k := (p.y * width + p.x) * 4 + 3;
      DivModUnique(k, 4, p.y * width + p.x, 3);
    }
  }

  /** Every inked lattice point lies inside the box of the first pass. */
  lemma TextBoundsCover(data: seq<byte>, width: nat, height: nat, rate: nat, p: Point)
    requires IsRaster(data, width, height) && 0 < rate
    requires Inked(data, width, height, rate, p)
    ensures Inside(TextBounds(data, width, height, rate), p)
    ensures SpreadRadius(TextBounds(data, width, height, rate)) >= 0.0
  {
    ZeroOnLattice(rate);
    InkedFromComplete(data, width, height, rate, 0, 0, p);
    FoldCovers(InitialBounds(width, height), Inked0(data, width, height, rate));
  }

  /**
   * A freshly spawned particle takes its alpha from the pixel, starts at 0.3
   * of it and aims below 0.6 of it; its colour is the pixel's colour.
   */
  lemma SpawnOpacity(m: MathLib, px: Pixel, p: Point, index: nat,
                     spreadRadius: real, d: SpawnDraw)
    requires Bounded(m) && px.a > 0 && ValidSpawnDraw(d)
    ensures var q := Spawn(m, px, p, index, spreadRadius, d);
            HomeAt(q, p) && q.originalAlpha == px.a as real / 255.0 &&
            q.color == Rgba(px.r as int, px.g as int, px.b as int, q.originalAlpha) &&
            0.0 < q.originalAlpha <= 1.0 &&
            q.opacity == q.originalAlpha * 0.3 &&
            0.0 <= q.targetOpacity < q.originalAlpha * 0.6
  {
    var q := Spawn(m, px, p, index, spreadRadius, d);
    AlphaFraction(px.a);
    TargetBelow(q.originalAlpha, d.targetOpacity, q.targetOpacity);
  }

  /** A positive alpha byte as a fraction lies in (0, 1]. */
  lemma AlphaFraction(a: byte)
    requires 0 < a
    ensures 0.0 < a as real / 255.0 <= 1.0
  {
  }

  /** A unit draw's share of 0.6 of a positive alpha stays below 0.6 of it. */
  lemma TargetBelow(oa: real, f: real, target: real)
    requires 0.0 < oa && IsUnit(f) && target == f * oa * 0.6
    ensures 0.0 <= target < oa * 0.6
  {
    UnitScale(f, oa);
  }

  /** A freshly spawned particle floats and sparkles at rates in [0.5, 2) and has a rainbow colour. */
  lemma SpawnRates(m: MathLib, px: Pixel, p: Point, index: nat, spreadRadius: real, d: SpawnDraw)
    requires Bounded(m) && ValidSpawnDraw(d)
    ensures var q := Spawn(m, px, p, index, spreadRadius, d);
            0.5 <= q.floatingSpeed < 2.0 && 0.5 <= q.sparkleSpeed < 2.0 &&
            0.0 <= q.floatingAngle < 2.0 * PI &&
            0.0 <= q.hue < 360.0 && 55.0 <= q.saturation <= 85.0 && 40.0 <= q.lightness <= 70.0
  {
  }

  /** A freshly spawned particle starts at most `spreadRadius` from its home pixel. */
  lemma SpawnScatter(m: MathLib, px: Pixel, p: Point, index: nat, spreadRadius: real, d: SpawnDraw)
    requires Bounded(m) && Pythagorean(m) && ValidSpawnDraw(d) && 0.0 <= spreadRadius
    ensures HomeDistance2(Spawn(m, px, p, index, spreadRadius, d)) <= spreadRadius * spreadRadius
  {
    var q := Spawn(m, px, p, index, spreadRadius, d);
    ScatterBound(m, q, d.angle * PI * 2.0, d.distance, spreadRadius);
  }

  /** A particle `f` * `radius` away from home along some angle is within `radius` of it. */
  lemma ScatterBound(m: MathLib, q: Particle, angle: real, f: real, radius: real)
    requires Pythagorean(m) && IsUnit(f) && 0.0 <= radius
    requires q.x == q.originalX + m.cos(angle) * (f * radius)
    requires q.y == q.originalY + m.sin(angle) * (f * radius)
    ensures HomeDistance2(q) <= radius * radius
  {
    var distance := f * radius;
    assert HomeDistance2(q) == distance * distance by {
      OnCircle(m, angle, distance);
    }
    assert distance * distance <= radius * radius by {
      UnitScale(f, radius);
      SquareMonotone(distance, radius);
    }
  }

  /** A unit draw scales a non-negative bound down strictly, or to zero. */
  lemma UnitScale(f: real, v: real)
    requires IsUnit(f) && 0.0 <= v
    ensures 0.0 <= f * v <= v
    ensures 0.0 < v ==> f * v < v
  {
  }

  /** A point `distance` away along `angle` is at squared distance `distance`^2. */
  lemma OnCircle(m: MathLib, angle: real, distance: real)
    requires Pythagorean(m)
    ensures (m.cos(angle) * distance) * (m.cos(angle) * distance) +
            (m.sin(angle) * distance) * (m.sin(angle) * distance) == distance * distance
  {
    var c, s := m.cos(angle), m.sin(angle);
    assert c * c + s * s == 1.0;
    calc {
      (c * distance) * (c * distance) + (s * distance) * (s * distance);
      (c * c + s * s) * (distance * distance);
      distance * distance;
    }
  }

  /** `createParticles` on a raster already read back from the canvas. */
  method CreateParticles(m: MathLib, data: array<byte>, width: nat, height: nat,
                         transformedDensity: int, rnd: nat -> SpawnDraw)
    returns (particles: seq<Particle>)
    requires Bounded(m) && IsRaster(data[..], width, height)
    ensures particles == Sampled(m, data[..], width, height, SampleRate(transformedDensity), rnd)
  {
    var sampleRate := SampleRate(transformedDensity);
    var bounds := ScanTextBounds(data, width, height, sampleRate);
    var spreadRadius := MaxInt(bounds.maxX - bounds.minX, bounds.maxY - bounds.minY) as real * 0.16;
    particles := EmitParticles(m, data, width, height, sampleRate, spreadRadius, rnd);
  }

  /** The first pass: the bounds of the inked lattice points. */
  method ScanTextBounds(data: array<byte>, width: nat, height: nat, sampleRate: nat) returns (b: Bounds)
    requires IsRaster(data[..], width, height) && 0 < sampleRate
    ensures b == TextBounds(data[..], width, height, sampleRate)
  {
    b := InitialBounds(width, height);
    var y: nat := 0;
    while y < height
      invariant FoldBounds(b, InkedFrom(data[..], width, height, sampleRate, 0, y))
                == TextBounds(data[..], width, height, sampleRate)
    {
      b := ScanRow(data, width, height, sampleRate, y, b);
      y := y + sampleRate;
    }
  }

  /** One row of the first pass: the accumulators widened by the row's inked lattice points. */
  method ScanRow(data: array<byte>, width: nat, height: nat, sampleRate: nat, y: nat, b: Bounds)
    returns (r: Bounds)
    requires IsRaster(data[..], width, height) && 0 < sampleRate && y < height
    ensures FoldBounds(r, InkedFrom(data[..], width, height, sampleRate, 0, y + sampleRate))
            == FoldBounds(b, InkedFrom(data[..], width, height, sampleRate, 0, y))
  {
    var minX, maxX, minY, maxY := b.minX, b.maxX, b.minY, b.maxY;
    var x: nat := 0;
    while x < width
      invariant FoldBounds(Bounds(minX, maxX, minY, maxY), InkedFrom(data[..], width, height, sampleRate, x, y))
                == FoldBounds(b, InkedFrom(data[..], width, height, sampleRate, 0, y))
    {
      PixelInRaster(width, height, x, y);
      var alpha := data[(y * width + x) * 4 + 3];
      FoldFromStep(data[..], width, height, sampleRate, Bounds(minX, maxX, minY, maxY), x, y);
      if alpha > 0 {
        minX := MinInt(minX, x);
        maxX := MaxInt(maxX, x);
        minY := MinInt(minY, y);
        maxY := MaxInt(maxY, y);
      }
      x := x + sampleRate;
    }
    r := Bounds(minX, maxX, minY, maxY);
  }

  /** One step of the inner loop of the first pass. */
  lemma FoldFromStep(data: seq<byte>, width: nat, height: nat, rate: nat, b: Bounds, x: nat, y: nat)
    requires IsRaster(data, width, height) && 0 < rate && x < width && y < height
    ensures FoldBounds(b, InkedFrom(data, width, height, rate, x, y)) ==
            FoldBounds(if AlphaAt(data, width, height, x, y) > 0 then Extend(b, Point(x, y)) else b,
                       InkedFrom(data, width, height, rate, x + rate, y))
  {
    var rest := InkedFrom(data, width, height, rate, x + rate, y);
    if AlphaAt(data, width, height, x, y) > 0 {
      assert ([Point(x, y)] + rest)[1..] == rest;
    }
  }

  /** Reads the four bytes of pixel (x, y) from the raster. */
  method ReadPixel(data: array<byte>, width: nat, height: nat, x: nat, y: nat) returns (px: Pixel)
    requires IsRaster(data[..], width, height) && x < width && y < height
    ensures px == PixelAt(data[..], width, Point(x, y))
    ensures px.a == AlphaAt(data[..], width, height, x, y)
  {
    PixelInRaster(width, height, x, y);
    var index := (y * width + x) * 4;
    px := Pixel(data[index], data[index + 1], data[index + 2], data[index + 3]);
  }

  /** The second pass: one particle per inked lattice point, in row-major order. */
  method EmitParticles(m: MathLib, data: array<byte>, width: nat, height: nat, sampleRate: nat,
                       spreadRadius: real, rnd: nat -> SpawnDraw)
    returns (particles: seq<Particle>)
    requires Bounded(m) && IsRaster(data[..], width, height) && 0 < sampleRate
    ensures particles == SpawnInked(m, data[..], width, height, sampleRate, spreadRadius, rnd)
  {
    ghost var spawn := Spawner(m, data[..], width, spreadRadius, rnd);
    particles := [];
    var y: nat := 0;
    while y < height
      invariant SpawnFrom(data[..], width, height, sampleRate, spawn, particles, 0, y)
                == SpawnInked(m, data[..], width, height, sampleRate, spreadRadius, rnd)
    {
      particles := EmitRow(m, data, width, height, sampleRate, spreadRadius, rnd, y, particles);
      y := y + sampleRate;
    }
  }

  /** One row of the second pass: a particle pushed for each inked lattice point of row `y`. */
  method EmitRow(m: MathLib, data: array<byte>, width: nat, height: nat, sampleRate: nat,
                 spreadRadius: real, rnd: nat -> SpawnDraw, y: nat, acc: seq<Particle>)
    returns (particles: seq<Particle>)
    requires Bounded(m) && IsRaster(data[..], width, height) && 0 < sampleRate && y < height
    ensures var spawn := Spawner(m, data[..], width, spreadRadius, rnd);
            SpawnFrom(data[..], width, height, sampleRate, spawn, particles, 0, y + sampleRate)
            == SpawnFrom(data[..], width, height, sampleRate, spawn, acc, 0, y)
  {
    ghost var spawn := Spawner(m, data[..], width, spreadRadius, rnd);
    particles := acc;
    var particleIndex := |acc|;
    var x: nat := 0;
    while x < width
      invariant particleIndex == |particles|
      invariant SpawnFrom(data[..], width, height, sampleRate, spawn, particles, x, y)
                == SpawnFrom(data[..], width, height, sampleRate, spawn, acc, 0, y)
    {
      var pixel := ReadPixel(data, width, height, x, y);
      EmitStep(m, data[..], width, height, sampleRate, spreadRadius, rnd, particles, x, y, pixel);
      if pixel.a > 0 {
        var particle := Spawn(m, pixel, Point(x, y), particleIndex, spreadRadius, rnd(particleIndex));
        particles := particles + [particle];
        particleIndex := particleIndex + 1;
      }
      x := x + sampleRate;
    }
  }
}
