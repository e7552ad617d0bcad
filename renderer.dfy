/**
 * The renderer (`renderParticles`).  Particles that are nearly invisible
 * are skipped; every other particle becomes a square sprite in the colour
 * batch of its `rgba(...)` string, and the batches are drawn in the order
 * their colours first appeared (the insertion order of a JavaScript `Map`).
 * The canvas calls themselves are not modelled: the result of rendering is
 * the list of batches that would be drawn.
 */
module Renderer {
  import opened JsMath
  import opened Colour
  import opened Particles

  /** Particles at or below this opacity are not drawn. */
  const VisibleOpacity: real := 0.01

  /** The `{x, y, size}` record pushed for one drawn particle. */
  datatype Sprite = Sprite(x: real, y: real, size: real)

  /** One entry of the colour map: a fill colour and the sprites drawn in it. */
  datatype Batch = Batch(color: Rgba, items: seq<Sprite>)

  predicate Visible(p: Particle) {
    p.opacity > VisibleOpacity
  }

  /** The fill colour of a particle: its HSL colour in RGB, alpha capped at 1. */
  function DrawColor(p: Particle): Rgba {
    var c := HslToRgb(p.hue, p.saturation, p.lightness);
    Rgba(c.r, c.g, c.b, Min(p.opacity, 1.0))
  }

  /**
   * A drawn particle's alpha is `min(opacity, 1)`, in (0.01, 1]; its
   * channels are valid whenever saturation and lightness are percentages.
   */
  lemma DrawColorRange(p: Particle)
    requires Visible(p)
    ensures var c := DrawColor(p);
            VisibleOpacity < c.a <= 1.0 && c.a <= p.opacity && (c.a == p.opacity || c.a == 1.0) &&
            (0.0 <= p.saturation <= 100.0 && 0.0 <= p.lightness <= 100.0 ==>
               IsChannel(c.r) && IsChannel(c.g) && IsChannel(c.b))
  {
    if 0.0 <= p.saturation <= 100.0 && 0.0 <= p.lightness <= 100.0 {
      HslToRgbChannels(p.hue, p.saturation, p.lightness);
    }
  }

  /**
   * The sprite of a particle: its position scaled down by the device pixel
   * ratio and a size pulsing with `sin(now * 0.003 + floatingAngle)`, where
   * `now` is the clock reading taken for this particle.
   */
  function SpriteOf(m: MathLib, p: Particle, globalDpr: real, now: real): Sprite
    requires globalDpr != 0.0
  {
    Sprite(p.x / globalDpr, p.y / globalDpr, 4.5 + m.sin(now * 0.003 + p.floatingAngle) * 2.0)
  }

  /** Sprite sizes stay within [2.5, 6.5]. */
  lemma SpriteSize(m: MathLib, p: Particle, globalDpr: real, now: real)
    requires Bounded(m) && globalDpr != 0.0
    ensures 2.5 <= SpriteOf(m, p, globalDpr, now).size <= 6.5
  {
    var s := m.sin(now * 0.003 + p.floatingAngle);
    assert -1.0 <= s <= 1.0;
  }

  /** The colours of the batches, in drawing order. */
  function Colours(bs: seq<Batch>): (cs: seq<Rgba>)
    ensures |cs| == |bs| && forall i :: 0 <= i < |bs| ==> cs[i] == bs[i].color
  {
    seq(|bs|, i requires 0 <= i < |bs| => bs[i].color)
  }

  /** No colour has two batches. */
  predicate DistinctColours(bs: seq<Batch>) {
    forall i, j :: 0 <= i < j < |bs| ==> bs[i].color != bs[j].color
  }

  /** No batch is empty. */
  predicate NonEmptyBatches(bs: seq<Batch>) {
    forall i :: 0 <= i < |bs| ==> bs[i].items != []
  }

  /**
   * Adding a sprite of colour `k`: appended to the batch of `k` when there
   * is one, otherwise in a new batch of its own at the end.
   */
  function Insert(bs: seq<Batch>, k: Rgba, s: Sprite): seq<Batch>
    decreases |bs|
  {
    if bs == [] then [Batch(k, [s])]
    else if bs[0].color == k then [Batch(k, bs[0].items + [s])] + bs[1..]
    else [bs[0]] + Insert(bs[1..], k, s)
  }

  /** All sprites of colour `k`, batch after batch. */
  function ItemsFor(bs: seq<Batch>, k: Rgba): seq<Sprite>
    decreases |bs|
  {
    if bs == [] then []
    else (if bs[0].color == k then bs[0].items else []) + ItemsFor(bs[1..], k)
  }

  /** A tail of a list with distinct colours has distinct colours. */
  lemma DistinctTail(bs: seq<Batch>)
    requires DistinctColours(bs) && bs != []
    ensures DistinctColours(bs[1..]) && forall i :: 0 <= i < |bs[1..]| ==> bs[1..][i].color != bs[0].color
  {
    forall a, b | 0 <= a < b < |bs[1..]| ensures bs[1..][a].color != bs[1..][b].color {
      assert bs[1..][a] == bs[a + 1] && bs[1..][b] == bs[b + 1];
    }
    forall a | 0 <= a < |bs[1..]| ensures bs[1..][a].color != bs[0].color {
      assert bs[1..][a] == bs[a + 1];
    }
  }

  /**
   * With distinct colours, inserting adds the sprite after the sprites of
   * its own colour and touches no other colour.
   */
  lemma {:induction false} InsertItems(bs: seq<Batch>, k: Rgba, s: Sprite, c: Rgba)
    requires DistinctColours(bs)
    ensures ItemsFor(Insert(bs, k, s), c) == ItemsFor(bs, c) + (if c == k then [s] else [])
    decreases |bs|
  {
    if bs == [] {
    } else {
      DistinctTail(bs);
      var r := Insert(bs, k, s);
      if bs[0].color == k {
        assert r[0] == Batch(k, bs[0].items + [s]) && r[1..] == bs[1..];
        if c == k {
          NoItemsFor(bs[1..], k);
        }
      } else {
        assert r[0] == bs[0] && r[1..] == Insert(bs[1..], k, s);
        InsertItems(bs[1..], k, s, c);
      }
    }
  }

  /** The colours of a batch list, split at its head. */
  lemma ColoursCons(bs: seq<Batch>)
    requires bs != []
    ensures Colours(bs) == [bs[0].color] + Colours(bs[1..])
  {
  }

  /** Inserting keeps the colour order and adds `k` at the end when it is new. */
  lemma {:induction false} InsertColours(bs: seq<Batch>, k: Rgba, s: Sprite)
    ensures Colours(Insert(bs, k, s)) == if k in Colours(bs) then Colours(bs) else Colours(bs) + [k]
    decreases |bs|
  {
    var r := Insert(bs, k, s);
    if bs == [] {
      assert Colours(r) == [k];
    } else {
      ColoursCons(bs);
      ColoursCons(r);
      if bs[0].color == k {
        assert r[1..] == bs[1..];
      } else {
        assert r[1..] == Insert(bs[1..], k, s);
        InsertColours(bs[1..], k, s);
      }
    }
  }

  /** Inserting never leaves a batch empty. */
  lemma {:induction false} InsertNonEmpty(bs: seq<Batch>, k: Rgba, s: Sprite)
    requires NonEmptyBatches(bs)
    ensures NonEmptyBatches(Insert(bs, k, s))
    decreases |bs|
  {
    if bs != [] && bs[0].color != k {
      var r := Insert(bs, k, s);
      assert NonEmptyBatches(bs[1..]) by {
        forall i | 0 <= i < |bs[1..]| ensures bs[1..][i] == bs[i + 1] { }
      }
      InsertNonEmpty(bs[1..], k, s);
      forall i | 0 <= i < |r| ensures r[i].items != [] {
        if i > 0 {
          assert r[i] == Insert(bs[1..], k, s)[i - 1];
        }
      }
    }
  }

  /** Inserting keeps colours distinct and batches non-empty, and adds `k` to the colours. */
  lemma InsertShape(bs: seq<Batch>, k: Rgba, s: Sprite)
    requires DistinctColours(bs) && NonEmptyBatches(bs)
    ensures var r := Insert(bs, k, s);
            DistinctColours(r) && NonEmptyBatches(r) &&
            (forall c :: c in Colours(r) <==> c in Colours(bs) || c == k)
  {
    var r := Insert(bs, k, s);
    InsertColours(bs, k, s);
    InsertNonEmpty(bs, k, s);
    forall i, j | 0 <= i < j < |r| ensures r[i].color != r[j].color {
      assert Colours(r)[i] == r[i].color && Colours(r)[j] == r[j].color;
      if j < |bs| {
        assert Colours(bs)[i] == bs[i].color && Colours(bs)[j] == bs[j].color;
      } else {
        assert Colours(bs)[i] == bs[i].color;
      }
    }
  }

  /**
   * What the search loop of `AddToBatch` finds: with `j` the first batch of
   * colour `k`, or `|bs|` when there is none, inserting updates batch `j`
   * in place or appends a new batch.
   */
  lemma {:induction false} InsertAt(bs: seq<Batch>, k: Rgba, s: Sprite, j: nat)
    requires j <= |bs| && (forall i :: 0 <= i < j ==> bs[i].color != k)
    requires j < |bs| ==> bs[j].color == k
    ensures Insert(bs, k, s) ==
            if j == |bs| then bs + [Batch(k, [s])] else bs[j := Batch(k, bs[j].items + [s])]
    decreases j
  {
    if j > 0 {
      InsertAt(bs[1..], k, s, j - 1);
      if j == |bs| {
        assert [bs[0]] + (bs[1..] + [Batch(k, [s])]) == bs + [Batch(k, [s])];
      } else {
        assert [bs[0]] + bs[1..][j - 1 := Batch(k, bs[j].items + [s])] == bs[j := Batch(k, bs[j].items + [s])];
      }
    } else if j < |bs| {
      assert [Batch(k, bs[0].items + [s])] + bs[1..] == bs[0 := Batch(k, bs[0].items + [s])];
    }
  }

  /** The batches after drawing every particle of `ps`, in order; `clock(i)` is particle i's clock reading. */
  function Batched(m: MathLib, ps: seq<Particle>, globalDpr: real, clock: nat -> real): seq<Batch>
    requires globalDpr != 0.0
    decreases |ps|
  {
    if ps == [] then []
    else
      var bs := Batched(m, ps[..|ps| - 1], globalDpr, clock);
      var p := ps[|ps| - 1];
      if Visible(p) then Insert(bs, DrawColor(p), SpriteOf(m, p, globalDpr, clock(|ps| - 1))) else bs
  }

  /** The independent reading: the sprites of the visible particles of colour `k`, in particle order. */
  function Drawn(m: MathLib, ps: seq<Particle>, globalDpr: real, clock: nat -> real, k: Rgba): seq<Sprite>
    requires globalDpr != 0.0
    decreases |ps|
  {
    if ps == [] then []
    else
      var p := ps[|ps| - 1];
      Drawn(m, ps[..|ps| - 1], globalDpr, clock, k) +
      (if Visible(p) && DrawColor(p) == k then [SpriteOf(m, p, globalDpr, clock(|ps| - 1))] else [])
  }

  /**
   * The batching is exactly a grouping by colour: colours are distinct,
   * batches are non-empty, the sprites of each colour are the sprites of
   * the visible particles of that colour in order, and a colour has a batch
   * exactly when some visible particle has it.
   */
  lemma {:induction false} BatchedGroups(m: MathLib, ps: seq<Particle>, globalDpr: real, clock: nat -> real)
    requires globalDpr != 0.0
    ensures var bs := Batched(m, ps, globalDpr, clock);
            DistinctColours(bs) && NonEmptyBatches(bs) &&
            (forall k :: ItemsFor(bs, k) == Drawn(m, ps, globalDpr, clock, k)) &&
            (forall k :: k in Colours(bs) <==> ShowsColour(ps, k))
    decreases |ps|
  {
    if ps != [] {
      var init := ps[..|ps| - 1];
      var p := ps[|ps| - 1];
      BatchedGroups(m, init, globalDpr, clock);
      var before := Batched(m, init, globalDpr, clock);
      var bs := Batched(m, ps, globalDpr, clock);
      if Visible(p) {
        var s := SpriteOf(m, p, globalDpr, clock(|ps| - 1));
        InsertShape(before, DrawColor(p), s);
        forall k ensures ItemsFor(bs, k) == Drawn(m, ps, globalDpr, clock, k) {
          InsertItems(before, DrawColor(p), s, k);
        }
      }
      forall k ensures k in Colours(bs) <==> ShowsColour(ps, k) {
        BatchedColourStep(m, ps, globalDpr, clock, k);
        ShowsColourStep(ps, k);
      }
    }
  }

  /** Particle `p` is drawn in colour `k`. */
  predicate Shows(p: Particle, k: Rgba) {
    Visible(p) && DrawColor(p) == k
  }

  /** Some visible particle of `ps` has colour `k`. */
  predicate ShowsColour(ps: seq<Particle>, k: Rgba) {
    exists i :: 0 <= i < |ps| && Shows(ps[i], k)
  }

  /** A colour has a batch after the last particle exactly when it had one before or that particle shows it. */
  lemma BatchedColourStep(m: MathLib, ps: seq<Particle>, globalDpr: real, clock: nat -> real, k: Rgba)
    requires globalDpr != 0.0 && ps != []
    ensures var p := ps[|ps| - 1];
            k in Colours(Batched(m, ps, globalDpr, clock)) <==>
            k in Colours(Batched(m, ps[..|ps| - 1], globalDpr, clock)) || Shows(p, k)
  {
    var p := ps[|ps| - 1];
    if Visible(p) {
      InsertColours(Batched(m, ps[..|ps| - 1], globalDpr, clock), DrawColor(p), SpriteOf(m, p, globalDpr, clock(|ps| - 1)));
    }
  }

  /** Some particle shows `k` exactly when one before the last does or the last does. */
  lemma ShowsColourStep(ps: seq<Particle>, k: Rgba)
    requires ps != []
    ensures ShowsColour(ps, k) <==> ShowsColour(ps[..|ps| - 1], k) || Shows(ps[|ps| - 1], k)
  {
    var init := ps[..|ps| - 1];
    if ShowsColour(ps, k) && !Shows(ps[|ps| - 1], k) {
      var i :| 0 <= i < |ps| && Shows(ps[i], k);
      assert init[i] == ps[i];
      assert ShowsColour(init, k);
    }
    if ShowsColour(init, k) {
      var i :| 0 <= i < |init| && Shows(init[i], k);
      assert ps[i] == init[i];
    }
    if Shows(ps[|ps| - 1], k) {
      assert ShowsColour(ps, k);
    }
  }

  /** With distinct colours, the sprites of colour `k` are those of its one batch. */
  lemma {:induction false} ItemsOfBatch(bs: seq<Batch>, j: nat)
    requires DistinctColours(bs) && j < |bs|
    ensures ItemsFor(bs, bs[j].color) == bs[j].items
    decreases |bs|
  {
    var k := bs[j].color;
    DistinctTail(bs);
    if j == 0 {
      NoItemsFor(bs[1..], k);
    } else {
      assert bs[1..][j - 1] == bs[j];
      ItemsOfBatch(bs[1..], j - 1);
    }
  }

  /** No batch of colour `k`, no sprites of colour `k`. */
  lemma {:induction false} NoItemsFor(bs: seq<Batch>, k: Rgba)
    requires forall i :: 0 <= i < |bs| ==> bs[i].color != k
    ensures ItemsFor(bs, k) == []
    decreases |bs|
  {
    if bs != [] {
      assert forall i :: 0 <= i < |bs[1..]| ==> bs[1..][i] == bs[i + 1];
      NoItemsFor(bs[1..], k);
    }
  }

  /** A visible particle's sprite is among the drawn sprites of its colour. */
  lemma {:induction false} DrawnHolds(m: MathLib, ps: seq<Particle>, globalDpr: real, clock: nat -> real, i: nat)
    requires globalDpr != 0.0 && i < |ps| && Visible(ps[i])
    ensures SpriteOf(m, ps[i], globalDpr, clock(i)) in Drawn(m, ps, globalDpr, clock, DrawColor(ps[i]))
    decreases |ps|
  {
    if i < |ps| - 1 {
      assert ps[..|ps| - 1][i] == ps[i];
      DrawnHolds(m, ps[..|ps| - 1], globalDpr, clock, i);
    }
  }

  /**
   * Every drawn particle lands in exactly one batch: the one of its colour,
   * whose sprites include the particle's own.
   */
  lemma ExactlyOneBatch(m: MathLib, ps: seq<Particle>, globalDpr: real, clock: nat -> real, i: nat)
    requires globalDpr != 0.0 && i < |ps| && Visible(ps[i])
    ensures var bs := Batched(m, ps, globalDpr, clock);
            exists j :: 0 <= j < |bs| && bs[j].color == DrawColor(ps[i]) &&
              SpriteOf(m, ps[i], globalDpr, clock(i)) in bs[j].items &&
              forall j' :: 0 <= j' < |bs| && bs[j'].color == DrawColor(ps[i]) ==> j' == j
  {
    var bs := Batched(m, ps, globalDpr, clock);
    var k := DrawColor(ps[i]);
    BatchedGroups(m, ps, globalDpr, clock);
    assert k in Colours(bs);
    var j :| 0 <= j < |bs| && Colours(bs)[j] == k;
    ItemsOfBatch(bs, j);
    DrawnHolds(m, ps, globalDpr, clock, i);
  }

  /** An invisible particle is drawn in no batch of any colour. */
  lemma {:induction false} HiddenNotDrawn(m: MathLib, ps: seq<Particle>, globalDpr: real, clock: nat -> real)
    requires globalDpr != 0.0 && forall i :: 0 <= i < |ps| ==> !Visible(ps[i])
    ensures Batched(m, ps, globalDpr, clock) == []
    decreases |ps|
  {
    if ps != [] {
      assert forall i :: 0 <= i < |ps| - 1 ==> ps[..|ps| - 1][i] == ps[i];
      HiddenNotDrawn(m, ps[..|ps| - 1], globalDpr, clock);
    }
  }

  /** `particlesByColor.get(color).push(...)`, creating the batch first when the colour is new. */
  method AddToBatch(batches: seq<Batch>, color: Rgba, sprite: Sprite) returns (r: seq<Batch>)
    ensures r == Insert(batches, color, sprite)
  {
    var j := 0;
    while j < |batches| && batches[j].color != color
      invariant 0 <= j <= |batches|
      invariant forall i :: 0 <= i < j ==> batches[i].color != color
    {
      j := j + 1;
    }
    InsertAt(batches, color, sprite, j);
    if j == |batches| {
      r := batches + [Batch(color, [sprite])];
    } else {
      r := batches[j := Batch(color, batches[j].items + [sprite])];
    }
  }

  /** `renderParticles`: one pass over the particles building the colour batches. */
  method RenderParticles(m: MathLib, particles: array<Particle>, globalDpr: real, clock: nat -> real)
    returns (batches: seq<Batch>)
    requires globalDpr != 0.0
    ensures batches == Batched(m, particles[..], globalDpr, clock)
  {
    batches := [];
    var index := 0;
    while index < particles.Length
      invariant 0 <= index <= particles.Length
      invariant batches == Batched(m, particles[..index], globalDpr, clock)
    {
      var particle := particles[index];
      assert particles[..index + 1][..index] == particles[..index];
      if particle.opacity > VisibleOpacity {
        var sprite := SpriteOf(m, particle, globalDpr, clock(index));
        batches := AddToBatch(batches, DrawColor(particle), sprite);
      }
      index := index + 1;
    }
    assert particles[..particles.Length] == particles[..];
  }
}
