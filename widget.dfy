/**
 * The `MagicTextReveal` component as an object: its React state and refs
 * are fields, and its event handlers, animation frames, debounced resize
 * and canvas rendering are methods.  Browser facilities (the window, the
 * canvas, the clocks, `Math.random`) are passed in as parameters.
 */
module Widget {
  import opened JsMath
  import opened Particles
  import opened Sampler
  import opened Simulator
  import opened Renderer

  datatype Option<T> = None | Some(value: T)

  /** A width and height in CSS pixels. */
  datatype Size = Size(width: real, height: real)

  /** The `{width, height}` `measureText` returns. */
  datatype Dimensions = Dimensions(width: int, height: int)

  /** What the text measurement can see: no window, no 2-D context, or the measured text width. */
  datatype TextMetrics = NoWindow | NoContext | Measured(textWidth: real)

  /** The browser window at resize time; `parent` is the wrapper's parent box when it has one. */
  datatype Viewport = Viewport(innerWidth: real, innerHeight: real, parent: Option<Size>)

  /** The component's props that the modelled logic reads. */
  datatype Props = Props(fontSize: real, spread: real, speed: real, density: int, resetOnMouseLeave: bool)

  /**
   * `globalDpr`: the device pixel ratio capped at 2, with 1 when there is
   * no window or the capped ratio is 0.  It is never 0, so dividing by it
   * is always defined.
   */
  function GlobalDpr(hasWindow: bool, devicePixelRatio: real): (r: real)
    ensures r != 0.0 && r <= 2.0
    ensures !hasWindow || devicePixelRatio == 0.0 ==> r == 1.0
    ensures hasWindow && 2.0 <= devicePixelRatio ==> r == 2.0
    ensures !hasWindow || 0.0 < devicePixelRatio ==> 0.0 < r
    ensures hasWindow && 0.0 < devicePixelRatio ==> r <= devicePixelRatio
    ensures hasWindow && 0.0 < devicePixelRatio <= 2.0 ==> r == devicePixelRatio
  {
    if !hasWindow then 1.0
    else
      var capped := Min(devicePixelRatio, 2.0);
      if capped == 0.0 then 1.0 else capped
  }

  /**
   * `measureText`: without a window or a 2-D context the fallback 200 x 60;
   * otherwise the measured width plus half the font size, and 1.4 times the
   * font size, each rounded up to a whole pixel.
   */
  function MeasureText(metrics: TextMetrics, fontSize: real): (d: Dimensions)
    ensures !metrics.Measured? ==> d == Dimensions(200, 60)
    ensures metrics.Measured? ==>
              metrics.textWidth + fontSize * 0.5 <= d.width as real < metrics.textWidth + fontSize * 0.5 + 1.0 &&
              fontSize * 1.4 <= d.height as real < fontSize * 1.4 + 1.0
  {
    match metrics
    case NoWindow => Dimensions(200, 60)
    case NoContext => Dimensions(200, 60)
    case Measured(w) => Dimensions(Ceil(w + fontSize * 0.5), Ceil(fontSize * 1.4))
  }

  /** Narrower than 768 pixels counts as a phone. */
  predicate IsMobile(v: Viewport) {
    v.innerWidth < 768.0
  }

  /** The padding around the text: the larger of 20 pixels and 0.3 font sizes on a phone, of 40 and 0.5 elsewhere. */
  function BasePadding(fontSize: real, mobile: bool): (pad: real)
    ensures mobile ==> 20.0 <= pad && fontSize * 0.3 <= pad && (pad == 20.0 || pad == fontSize * 0.3)
    ensures !mobile ==> 40.0 <= pad && fontSize * 0.5 <= pad && (pad == 40.0 || pad == fontSize * 0.5)
  {
    if mobile then Max(fontSize * 0.3, 20.0) else Max(fontSize * 0.5, 40.0)
  }

  /** The share of the container the wrapper may take. */
  function ViewportMargin(mobile: bool): real {
    if mobile then 0.95 else 0.9
  }

  /** The box that limits the wrapper: the parent's when there is one, else the window's. */
  function Container(v: Viewport): Size {
    match v.parent
    case Some(box) => box
    case None => Size(v.innerWidth, v.innerHeight)
  }

  /**
   * The wrapper size the debounced resize sets: the text plus padding on
   * both sides, at least 120 x 60 on a phone and 200 x 100 elsewhere, but
   * never more than the margin share of the container.
   */
  function WrapperSize(text: Dimensions, fontSize: real, v: Viewport): (s: Size)
    ensures var mobile := IsMobile(v);
            var pad := BasePadding(fontSize, mobile);
            var limit := Container(v);
            var margin := ViewportMargin(mobile);
            s.width <= margin * limit.width && s.height <= margin * limit.height &&
            (s.width == margin * limit.width ||
               (text.width as real + 2.0 * pad <= s.width && (if mobile then 120.0 else 200.0) <= s.width)) &&
            (s.height == margin * limit.height ||
               (text.height as real + 2.0 * pad <= s.height && (if mobile then 60.0 else 100.0) <= s.height))
    ensures var mobile := IsMobile(v);
            var pad := BasePadding(fontSize, mobile);
            var limit := Container(v);
            var margin := ViewportMargin(mobile);
            var needWidth := Max(text.width as real + 2.0 * pad, if mobile then 120.0 else 200.0);
            var needHeight := Max(text.height as real + 2.0 * pad, if mobile then 60.0 else 100.0);
            s.width <= needWidth && (s.width == margin * limit.width || s.width == needWidth) &&
            s.height <= needHeight && (s.height == margin * limit.height || s.height == needHeight)
  {
    var mobile := IsMobile(v);
    var pad := BasePadding(fontSize, mobile);
    var minWidth := Max(text.width as real + pad * 2.0, if mobile then 120.0 else 200.0);
    var minHeight := Max(text.height as real + pad * 2.0, if mobile then 60.0 else 100.0);
    var limit := Container(v);
    var margin := ViewportMargin(mobile);
    Size(Min(minWidth, limit.width * margin), Min(minHeight, limit.height * margin))
  }

  /** A canvas dimension set from a CSS size: the attribute keeps the whole part. */
  function CanvasExtent(cssPixels: real): (n: nat)
    ensures 0.0 <= cssPixels ==> n as real <= cssPixels < n as real + 1.0
  {
    if cssPixels <= 0.0 then 0 else Floor(cssPixels)
  }

  /** The number of animation frames among the first `n` that the throttle lets through. */
  function ProcessedFrames(n: nat): nat {
    if n == 0 then 0 else ProcessedFrames(n - 1) + (if n % 2 == 0 then 1 else 0)
  }

  /** The throttle lets exactly every second frame through: half of them, rounded down. */
  lemma {:induction false} ThrottleHalves(n: nat)
    ensures ProcessedFrames(n) == n / 2
  {
    if n > 0 {
      ThrottleHalves(n - 1);
    }
  }

  class MagicTextReveal {
    const resetOnMouseLeave: bool
    const fontSize: real
    const spread: real
    const speed: real
    const transformedDensity: int
    const globalDpr: real

    var isHovered: bool
    var showText: bool
    var hasBeenShown: bool
    /** `particlesRef.current`. */
    var particles: array<Particle>
    /** `lastTimeRef.current`, in milliseconds. */
    var lastTime: real
    /** The animation loop's frame counter; it restarts with the loop. */
    var frameCount: nat
    var wrapperSize: Size
    var textDimensions: Dimensions
    /** Whether a debounced resize timer is pending; a new one replaces it. */
    var resizePending: bool

    /**
     * The hover latches: hover is only ever on after an enter, and
     * without `resetOnMouseLeave` it stays on once the text has been shown.
     */
    ghost predicate Valid()
      reads this
    {
      globalDpr != 0.0 &&
      (isHovered ==> hasBeenShown) &&
      (!resetOnMouseLeave && hasBeenShown ==> isHovered)
    }

    /** The first render: nothing hovered or shown, no particles, zero sizes. */
    constructor(props: Props, hasWindow: bool, devicePixelRatio: real, startTime: real)
      ensures Valid()
      ensures resetOnMouseLeave == props.resetOnMouseLeave && fontSize == props.fontSize
      ensures spread == props.spread && speed == props.speed
      ensures transformedDensity == TransformedDensity(props.density)
      ensures globalDpr == GlobalDpr(hasWindow, devicePixelRatio)
      ensures !isHovered && !showText && !hasBeenShown && particles.Length == 0
      ensures lastTime == startTime && frameCount == 0 && !resizePending
      ensures wrapperSize == Size(0.0, 0.0) && textDimensions == Dimensions(0, 0)
    {
      resetOnMouseLeave := props.resetOnMouseLeave;
      fontSize := props.fontSize;
      spread := props.spread;
      speed := props.speed;
      transformedDensity := TransformedDensity(props.density);
      globalDpr := GlobalDpr(hasWindow, devicePixelRatio);
      isHovered := false;
      showText := false;
      hasBeenShown := false;
      particles := new Particle[0];
      lastTime := startTime;
      frameCount := 0;
      wrapperSize := Size(0.0, 0.0);
      textDimensions := Dimensions(0, 0);
      resizePending := false;
    }

    /** `handleMouseEnter`: hover on, and the text counts as shown from now on. */
    method MouseEnter()
      requires Valid()
      modifies this
      ensures Valid()
      ensures isHovered && hasBeenShown
      ensures showText == old(showText) && particles == old(particles) && lastTime == old(lastTime)
      ensures frameCount == old(frameCount) && wrapperSize == old(wrapperSize)
      ensures textDimensions == old(textDimensions) && resizePending == old(resizePending)
    {
      isHovered := true;
      hasBeenShown := true;
    }

    /** `handleMouseLeave`: hover off only with `resetOnMouseLeave` or before the text was ever shown. */
    method MouseLeave()
      requires Valid()
      modifies this
      ensures Valid()
      ensures isHovered == (old(isHovered) && !resetOnMouseLeave && old(hasBeenShown))
      ensures !resetOnMouseLeave && hasBeenShown ==> isHovered
      ensures hasBeenShown == old(hasBeenShown)
      ensures showText == old(showText) && particles == old(particles) && lastTime == old(lastTime)
      ensures frameCount == old(frameCount) && wrapperSize == old(wrapperSize)
      ensures textDimensions == old(textDimensions) && resizePending == old(resizePending)
    {
      if resetOnMouseLeave || !hasBeenShown {
        isHovered := false;
      }
    }

    /**
     * The animation effect starting again, as it does whenever `isHovered`,
     * `showText` or another of its inputs changes: the frame counter restarts.
     */
    method RestartAnimation()
      modifies this
      ensures frameCount == 0
      ensures isHovered == old(isHovered) && showText == old(showText) && hasBeenShown == old(hasBeenShown)
      ensures particles == old(particles) && lastTime == old(lastTime) && wrapperSize == old(wrapperSize)
      ensures textDimensions == old(textDimensions) && resizePending == old(resizePending)
    {
      frameCount := 0;
    }

    /**
     * One `animate` callback at `currentTime` (milliseconds, the frame
     * clock) with `now` the wall clock in milliseconds.  Odd frames are
     * skipped; an even frame advances the frame clock, and, when there is a
     * canvas and at least one particle, ticks every particle, settles
     * `showText` and returns the colour batches it draws.
     */
    method AnimationFrame(m: MathLib, currentTime: real, now: real, hasCanvas: bool,
                          draws: nat -> IdleDraw, clock: nat -> real)
      returns (drawn: Option<seq<Batch>>)
      requires Valid() && Bounded(m)
      modifies this, particles
      ensures Valid()
      ensures frameCount == old(frameCount) + 1
      ensures particles == old(particles)
      ensures isHovered == old(isHovered) && hasBeenShown == old(hasBeenShown)
      ensures wrapperSize == old(wrapperSize) && textDimensions == old(textDimensions)
      ensures resizePending == old(resizePending)
      ensures frameCount % 2 != 0 ==>
                drawn == None && lastTime == old(lastTime) && showText == old(showText) &&
                particles[..] == old(particles[..])
      ensures frameCount % 2 == 0 ==> lastTime == currentTime
      ensures frameCount % 2 == 0 && hasCanvas && particles.Length > 0 ==>
                particles[..] == TickAll(m, old(particles[..]), (currentTime - old(lastTime)) / 1000.0,
                                         isHovered, now * 0.001, spread, speed, draws) &&
                showText == isHovered &&
                drawn == Some(Batched(m, particles[..], globalDpr, clock))
      ensures frameCount % 2 == 0 && !(hasCanvas && particles.Length > 0) ==>
                drawn == None && showText == old(showText) && particles[..] == old(particles[..])
    {
      frameCount := frameCount + 1;
      if frameCount % 2 != 0 {
        return None;
      }
      var deltaTime := (currentTime - lastTime) / 1000.0;
      lastTime := currentTime;
      if !hasCanvas || particles.Length == 0 {
        return None;
      }
      var shown := UpdateParticles(m, particles, deltaTime, isHovered, showText, spread, speed, now * 0.001, draws);
      showText := shown;
      var batches := RenderParticles(m, particles, globalDpr, clock);
      drawn := Some(batches);
    }

    /**
     * The text-measuring effect: new dimensions, after which the resize
     * effect starts over, dropping any pending timer and arming a new one
     * when both dimensions are non-zero.
     */
    method UpdateTextDimensions(metrics: TextMetrics)
      modifies this
      ensures textDimensions == MeasureText(metrics, fontSize)
      ensures resizePending == (textDimensions.width != 0 && textDimensions.height != 0)
      ensures isHovered == old(isHovered) && showText == old(showText) && hasBeenShown == old(hasBeenShown)
      ensures particles == old(particles) && lastTime == old(lastTime) && frameCount == old(frameCount)
      ensures wrapperSize == old(wrapperSize)
    {
      textDimensions := MeasureText(metrics, fontSize);
      resizePending := textDimensions.width != 0 && textDimensions.height != 0;
    }

    /** `handleResize`: the pending timer, if any, is replaced by a new one. */
    method HandleResize()
      modifies this
      ensures resizePending
      ensures isHovered == old(isHovered) && showText == old(showText) && hasBeenShown == old(hasBeenShown)
      ensures particles == old(particles) && lastTime == old(lastTime) && frameCount == old(frameCount)
      ensures wrapperSize == old(wrapperSize) && textDimensions == old(textDimensions)
    {
      resizePending := true;
    }

    /**
     * The debounced resize firing: with a mounted wrapper and non-zero text
     * dimensions the wrapper is resized to `WrapperSize`; otherwise nothing
     * changes but the timer being spent.
     */
    method ResizeTimerFires(hasWrapper: bool, v: Viewport)
      requires resizePending
      modifies this
      ensures !resizePending
      ensures wrapperSize ==
                if hasWrapper && textDimensions.width != 0 && textDimensions.height != 0
                then WrapperSize(textDimensions, fontSize, v) else old(wrapperSize)
      ensures isHovered == old(isHovered) && showText == old(showText) && hasBeenShown == old(hasBeenShown)
      ensures particles == old(particles) && lastTime == old(lastTime) && frameCount == old(frameCount)
      ensures textDimensions == old(textDimensions)
    {
      resizePending := false;
      if hasWrapper && textDimensions.width != 0 && textDimensions.height != 0 {
        wrapperSize := WrapperSize(textDimensions, fontSize, v);
      }
    }

    /** The canvas width in device pixels. */
    function CanvasWidth(): nat
      reads this
    {
      CanvasExtent(wrapperSize.width * globalDpr)
    }

    /** The canvas height in device pixels. */
    function CanvasHeight(): nat
      reads this
    {
      CanvasExtent(wrapperSize.height * globalDpr)
    }

    /**
     * `renderCanvas`: with a mounted wrapper of non-zero size and a canvas
     * element, the canvas is resized; when it yields a 2-D context, the text
     * drawn onto it is sampled into a fresh particle array (`data` is what
     * `getImageData` reads back), and the particles are drawn once.  Without
     * a context the render stops after the resize and keeps the particles.
     */
    method RenderCanvas(m: MathLib, data: array<byte>, hasWrapper: bool, hasCanvas: bool, hasContext: bool,
                        rnd: nat -> SpawnDraw, clock: nat -> real)
      returns (drawn: Option<seq<Batch>>)
      requires Valid() && Bounded(m) && IsRaster(data[..], CanvasWidth(), CanvasHeight())
      modifies this
      ensures Valid()
      ensures isHovered == old(isHovered) && showText == old(showText) && hasBeenShown == old(hasBeenShown)
      ensures lastTime == old(lastTime) && frameCount == old(frameCount) && wrapperSize == old(wrapperSize)
      ensures textDimensions == old(textDimensions) && resizePending == old(resizePending)
      ensures !(hasWrapper && hasCanvas && hasContext && old(wrapperSize).width != 0.0 && old(wrapperSize).height != 0.0) ==>
                drawn == None && particles == old(particles)
      ensures hasWrapper && hasCanvas && hasContext && old(wrapperSize).width != 0.0 && old(wrapperSize).height != 0.0 ==>
                fresh(particles) &&
                particles[..] == Sampled(m, data[..], old(CanvasWidth()), old(CanvasHeight()),
                                         SampleRate(transformedDensity), rnd) &&
                drawn == Some(Batched(m, particles[..], globalDpr, clock))
    {
      if !hasWrapper || !hasCanvas || wrapperSize.width == 0.0 || wrapperSize.height == 0.0 {
        return None;
      }
      var width, height := CanvasWidth(), CanvasHeight();
      if !hasContext {
        return None;
      }
      var sampled := CreateParticles(m, data, width, height, transformedDensity, rnd);
      particles := ToArray(sampled);
      var batches := RenderParticles(m, particles, globalDpr, clock);
      drawn := Some(batches);
    }
  }

  /** A fresh array holding `s`. */
  method ToArray(s: seq<Particle>) returns (a: array<Particle>)
    ensures fresh(a) && a[..] == s
  {
    a := new Particle[|s|](i requires 0 <= i < |s| => s[i]);
  }

  /**
   * With `resetOnMouseLeave` off, one mouse-enter turns hover on for good:
   * every later leave keeps it on.
   */
  method HoverSticks(w: MagicTextReveal, leaves: nat)
    requires w.Valid() && !w.resetOnMouseLeave
    modifies w
    ensures w.isHovered && w.hasBeenShown && w.Valid()
  {
    w.MouseEnter();
    var n := 0;
    while n < leaves
      invariant w.Valid() && w.isHovered && w.hasBeenShown
    {
      w.MouseLeave();
      n := n + 1;
    }
  }
}
