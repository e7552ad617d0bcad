# Magic text reveal — a Dafny model

This project models the logic of a portfolio page's one interactive component,
`MagicTextReveal`. The component turns a line of text into a cloud of coloured
particles. It rasterises the text, samples the raster on a stride lattice and
creates one particle per inked lattice pixel, scattered around that pixel. While
the cursor is away, the particles float and twinkle near their home pixels.
When the cursor hovers, they walk home and fade out, and the real text shows
instead. Every frame is throttled to every second animation callback. Each frame
ticks every particle in place, then draws the particles grouped in batches by
colour.

The project also models two small pieces of the page itself:

- the contact form's status machine, with the label and the disabled state of
  its submit button;
- the scroll handler. It coalesces scroll events through a `ticking` latch and
  derives the two header flags from the scroll position.

Files, one module each:

- `jsmath.dfy`: JavaScript arithmetic used by the component.
  - Truncating `%` on reals and integers.
  - `Math.floor`, `Math.ceil`, `Math.round`, `Math.min` and `Math.max`.
  - `MathLib`, the host's `sin`, `cos` and `sqrt`. They are passed in as
    functions together with the laws the proofs may use: sine and cosine lie in
    [-1, 1], sin² + cos² = 1, and `sqrt` returns the non-negative root.
- `colour.dfy`: `generateRainbowColor` and `hslToRgb`.
- `particles.dfy`: the `Particle` record.
- `sampler.dfy`:
  - `createParticles`, with its two passes over the raster as loops over an
    `array<byte>`;
  - the stride formula.
- `simulator.dfy`: `updateParticles`.
  - The hover step and the idle step of one particle.
  - A method that ticks every particle of an `array<Particle>` in place.
  - The `showText` latch.
- `renderer.dfy`: `renderParticles`, as a loop that builds the colour batches in
  the insertion order of a JavaScript `Map`.
- `widget.dfy`: the component as a class. React state and refs are its fields.
  - The hover handlers.
  - The throttled animation frame.
  - The text measurement and the debounced wrapper sizing.
  - `renderCanvas`.
  - The device-pixel-ratio formula.
- `contact.dfy`: `handleFormSubmit`, `getButtonText` and the submit button.
- `scroll.dfy`: the scroll handler.

Randomness is passed in as draws. Each `Math.random()` call of particle `i`
becomes a field of the draw `rnd(i)` or `draws(i)`, and the draw lies in [0, 1).
The clocks are parameters: `Date.now()`, the animation frame time and the start
time. The canvas, the window and the network are inputs:

- the raster `getImageData` reads back;
- the measured text width;
- whether the wrapper and the canvas are mounted and the canvas yields a 2-D context;
- the viewport;
- whether the post resolved.

Behaviour worth noting:

- The hover step moves a particle a fixed `4·dt·60` pixels along the unit
  vector towards home. It is not a proportional pull. So it can jump past home:
  `Simulator.HoverMaySettleNever` exhibits a particle that never settles.
- The text measurement falls back to 200 × 60, not to zero.
- A failed post shows the same success state as a resolved one.

## Model

| member | source | states |
|---|---|---|
| Sampler.Stride | src/components/ui/magic-text-reveal.tsx:148 | the sampling stride for a `density` is at least 4, even, and equals 12 − 2·density below density 4 and 4 from there on |
| Sampler.StrideAntitone | src/components/ui/magic-text-reveal.tsx:65 | raising `density` never makes the stride larger |
| Sampler.CreateParticles | src/components/ui/magic-text-reveal.tsx:118-225 | `createParticles` on a raster returns exactly `Sampled`: the second pass over the lattice with the spread radius of the first pass |
| Sampler.ScanTextBounds | src/components/ui/magic-text-reveal.tsx:150-168 | the first pass's `minX/maxX/minY/maxY` accumulators end as the box folded over the inked lattice points in scan order |
| Sampler.ScanRow | src/components/ui/magic-text-reveal.tsx:158-167 | one row of the first pass leaves the four accumulators as `min`/`max` folded over that row's inked lattice points |
| Sampler.EmitRow | src/components/ui/magic-text-reveal.tsx:177-219 | one row of the second pass pushes one particle per inked lattice point of the row, in order, numbered on from the particles already pushed |
| Sampler.ReadPixel | src/components/ui/magic-text-reveal.tsx:179-180 | the four bytes at `(y·width + x)·4` are the pixel at (x, y); its alpha byte is the one the passes test |
| Sampler.EmitParticles | src/components/ui/magic-text-reveal.tsx:175-220 | the second pass pushes, in scan order, one particle per inked lattice point, numbered by `particleIndex` |
| Sampler.InkedFromComplete | src/components/ui/magic-text-reveal.tsx:157-161 | every lattice point inside the canvas with alpha > 0 at or after the scan position is visited and kept |
| Sampler.InkedFromSound | src/components/ui/magic-text-reveal.tsx:177-181 | every kept point is an inked lattice point inside the canvas at or after the scan position |
| Sampler.InkedFromSorted | src/components/ui/magic-text-reveal.tsx:177-178 | the kept points come strictly in row-major order |
| Sampler.FoldCovers | src/components/ui/magic-text-reveal.tsx:161-166 | the folded box contains every point folded into it |
| Sampler.FoldKeepsInside | src/components/ui/magic-text-reveal.tsx:162-165 | widening the box with `min`/`max` never loses a point already inside |
| Sampler.TextBoundsCover | src/components/ui/magic-text-reveal.tsx:151-173 | every inked lattice point lies in the first-pass box, and with one inked point the spread radius 0.16·max(maxX−minX, maxY−minY) is ≥ 0 |
| Sampler.SpawnFromShape | src/components/ui/magic-text-reveal.tsx:176-220 | the second pass from any position appends to what it has the particles of the remaining inked points, numbered on from the particles already pushed |
| Sampler.SpawnListAt | src/components/ui/magic-text-reveal.tsx:216-217 | the i-th particle pushed is spawned for the i-th inked point with index i |
| Sampler.SpawnInkedShape | src/components/ui/magic-text-reveal.tsx:181-217 | there are as many particles as inked lattice points, and particle i is spawned from the pixel of the i-th inked point with index i and draw i |
| Sampler.SpawnInkedHomes | src/components/ui/magic-text-reveal.tsx:197-198 | particle i's home (`originalX`, `originalY`) is the i-th inked lattice point |
| Sampler.OneParticlePerInkedPixel | src/components/ui/magic-text-reveal.tsx:177-218 | every inked lattice point is the home of some particle, and homes come in strictly increasing row-major order, so no point has two particles |
| Sampler.BlankRasterNoParticles | src/components/ui/magic-text-reveal.tsx:180-181 | a raster whose alpha bytes are all 0 yields no particles |
| Sampler.SpawnOpacity | src/components/ui/magic-text-reveal.tsx:182-210 | `Spawn` for alpha > 0: home is the pixel, `originalAlpha` = alpha/255 ∈ (0, 1], the colour is the pixel's RGB with that alpha, opacity is 0.3·originalAlpha and the target opacity lies in [0, 0.6·originalAlpha) |
| Sampler.SpawnRates | src/components/ui/magic-text-reveal.tsx:191-211 | floating and sparkle speeds lie in [0.5, 2), the floating angle in [0, 2π), and the rainbow colour has hue in [0, 360), saturation in [55, 85] and lightness in [40, 70] |
| Sampler.SpawnScatter | src/components/ui/magic-text-reveal.tsx:185-188 | a particle starts within the spread radius of its home |
| Sampler.ScatterBound | src/components/ui/magic-text-reveal.tsx:187-188 | an offset of `cos(angle)·d`, `sin(angle)·d` with 0 ≤ d ≤ r lies within distance r |
| Colour.GenerateRainbowColor | src/components/ui/magic-text-reveal.tsx:72-77 | hue is in [0, 360) for a non-negative raw hue and in (−360, 360) always; saturation is in [55, 85]; lightness is in [40, 70] |
| Colour.HslToRgbChannels | src/components/ui/magic-text-reveal.tsx:80-92 | for saturation and lightness in [0, 100], every channel `hslToRgb` gives is in 0..255, whatever the hue |
| Colour.RoundedChannels | src/components/ui/magic-text-reveal.tsx:91 | the channels taken at offsets 0, 8 and 4 and rounded are valid channels when `a` ≤ min(l, 1 − l) |
| Colour.ChannelNear | src/components/ui/magic-text-reveal.tsx:86-89 | the helper `f(n)` (`Channel`) never leaves [l − a, l + a] |
| Colour.ChannelDrawable | src/components/ui/magic-text-reveal.tsx:86-91 | `round(f(n)·255)` is a valid channel when `a` ≤ min(l, 1 − l) |
| Colour.GreyWithoutSaturation | src/components/ui/magic-text-reveal.tsx:84-91 | with saturation 0, the three channels are equal |
| Simulator.HoverSnapsHome | src/components/ui/magic-text-reveal.tsx:253-259 | a hovered particle within 0.1 of home lands exactly on it, so a particle at home stays home |
| Simulator.HoverStepLength | src/components/ui/magic-text-reveal.tsx:249-256 | a hovered particle further than 0.1 from home moves exactly `4·dt·60` along the line home: its new distance is \|d − 4·dt·60\| |
| Simulator.HoverStepFrame | src/components/ui/magic-text-reveal.tsx:247-262 | a hover tick changes only the position and the opacity |
| Simulator.HoverFades | src/components/ui/magic-text-reveal.tsx:262 | the hover opacity is exactly max(0, opacity − 20·dt): never negative and never below opacity − 20·dt. It is never raised from a non-negative opacity when dt ≥ 0; an opacity the idle easing left negative is raised to 0 |
| Simulator.HoverFadeOut | src/components/ui/magic-text-reveal.tsx:247-262 | over any run of non-negative hover ticks the opacity is max(0, opacity − 20·elapsed time) |
| Simulator.HoverTwoTicks | src/components/ui/magic-text-reveal.tsx:253-256 | at 30 frames per second, a particle 0.2 from home overshoots to 7.8 past it and returns to its start in two ticks |
| Simulator.HoverMaySettleNever | src/components/ui/magic-text-reveal.tsx:247-262 | that particle is 0.2 from home after every even number of hover ticks, so the hover walk need not converge |
| Simulator.HoverTickAll | src/components/ui/magic-text-reveal.tsx:246-262 | a hover tick keeps every particle's identity, leaves no opacity negative and keeps home every particle that is home |
| Simulator.DriftFrame | src/components/ui/magic-text-reveal.tsx:265-297 | the floating part of an idle tick changes only the floating angle and the position: the angle becomes `FloatingAngle` and the position is the `Eased` step towards `Target` at that angle |
| Simulator.FloatingAngleAdvance | src/components/ui/magic-text-reveal.tsx:265 | for dt ≥ 0 and floatingSpeed ≥ 0 the angle advances by dt·floatingSpeed times a factor in [1, 2.2): at least dt·floatingSpeed and, when that is positive, strictly less than 2.2 times it |
| Simulator.NoiseBounds | src/components/ui/magic-text-reveal.tsx:268-278 | with sine and cosine in [−1, 1] and draws in [0, 1), the noise lies within ±1.44 horizontally and ±0.96 vertically |
| Simulator.TargetNearHome | src/components/ui/magic-text-reveal.tsx:281-284 | the drift target lies within 1.44·spread of home horizontally and 0.96·spread vertically |
| Simulator.EasedNearTarget | src/components/ui/magic-text-reveal.tsx:287-297 | the particle moves 4·speed·dt of the way to the target (`Glide`), off by at most speed/4 on each axis |
| Simulator.JitterScaleUnit | src/components/ui/magic-text-reveal.tsx:291-292 | for a non-negative distance and spread the jitter scale lies in [0, 1] |
| Simulator.JitterBound | src/components/ui/magic-text-reveal.tsx:293-294 | a jitter is at most a quarter of `speed` in size |
| Simulator.ContainFrame | src/components/ui/magic-text-reveal.tsx:299-309 | the soft boundary changes only the position |
| Simulator.ContainInside | src/components/ui/magic-text-reveal.tsx:299-309 | a particle within `spread` of home is untouched by the soft boundary |
| Simulator.ContainPullsBack | src/components/ui/magic-text-reveal.tsx:299-309 | a particle at distance d > `spread` ends at distance 0.92·d + 0.08·spread, strictly less than d and still more than `spread` |
| Simulator.SparkleFrame | src/components/ui/magic-text-reveal.tsx:312-313 | the sparkle easing changes only the opacity |
| Simulator.SparkleEases | src/components/ui/magic-text-reveal.tsx:312-313 | with an easing rate `sparkleSpeed·dt·3` in [0, 1], the opacity moves towards its target without passing it |
| Simulator.RecolourFrame | src/components/ui/magic-text-reveal.tsx:316-321 | the colour refresh changes only hue, saturation and lightness; a particle not due keeps them; a refreshed one gets hue in (−360, 360), saturation in [55, 85] and lightness in [40, 70] |
| Simulator.RecolourRoundRobin | src/components/ui/magic-text-reveal.tsx:316 | of three ticks whose `floor(2·time)` are consecutive, exactly one refreshes a given particle index |
| Simulator.RetargetFrame | src/components/ui/magic-text-reveal.tsx:324-329 | retargeting changes only the target opacity and the sparkle speed, and nothing at all unless the opacity was within 0.01 of its target |
| Simulator.RetargetRanges | src/components/ui/magic-text-reveal.tsx:324-329 | a new target lies in [0, 0.15·originalAlpha) with the 40 % coin and in [1.5, 2.5)·originalAlpha otherwise, and the new sparkle speed lies in [0.5, 2.5) |
| Simulator.TickKeepsIdentity | src/components/ui/magic-text-reveal.tsx:246-331 | no tick (`Tick`, in hover mode `HoverStep`, in idle mode `IdleStep`) changes a particle's home, colour or `originalAlpha` |
| Simulator.ShowTextAfterTick | src/components/ui/magic-text-reveal.tsx:333-338 | after the latch, `showText` equals `isHovered`, and it is only written when the two disagreed |
| Simulator.UpdateParticles | src/components/ui/magic-text-reveal.tsx:228-339 | the array afterwards holds `TickAll`: every particle ticked once in its own mode and index, and the returned `showText` equals `isHovered` |
| Renderer.DrawColorRange | src/components/ui/magic-text-reveal.tsx:354-361 | a drawn particle's colour (`DrawColor`) has alpha min(opacity, 1), which lies in (0.01, 1], and its channels are valid for percentage saturation and lightness |
| Renderer.SpriteSize | src/components/ui/magic-text-reveal.tsx:364 | sprite sizes (`SpriteOf`) lie in [2.5, 6.5] |
| Renderer.InsertItems | src/components/ui/magic-text-reveal.tsx:366-369 | with distinct colours, adding a sprite appends it to the sprites of its colour and leaves every other colour unchanged |
| Renderer.InsertShape | src/components/ui/magic-text-reveal.tsx:366-369 | adding a sprite keeps colours distinct and batches non-empty, and the colours become the old ones plus the sprite's |
| Renderer.InsertAt | src/components/ui/magic-text-reveal.tsx:366-369 | adding a sprite updates the first batch of its colour in place, or appends a new batch when there is none |
| Renderer.AddToBatch | src/components/ui/magic-text-reveal.tsx:366-369 | the search-and-push step adds the sprite as `Insert` specifies |
| Renderer.BatchedGroups | src/components/ui/magic-text-reveal.tsx:353-370 | the batches `Batched` gives have distinct colours and are non-empty; each colour's sprites are the sprites of the visible particles of that colour in particle order; a colour has a batch exactly when some visible particle has it |
| Renderer.ExactlyOneBatch | src/components/ui/magic-text-reveal.tsx:353-370 | every visible particle's sprite is in the batch of its colour, and that colour has exactly one batch |
| Renderer.HiddenNotDrawn | src/components/ui/magic-text-reveal.tsx:354 | when every particle has opacity ≤ 0.01, nothing is drawn |
| Renderer.RenderParticles | src/components/ui/magic-text-reveal.tsx:342-388 | one pass over the particle array returns exactly the batches `Batched` specifies |
| Widget.GlobalDpr | src/components/ui/magic-text-reveal.tsx:66-69 | the ratio is min(devicePixelRatio, 2), or 1 without a window or when that is 0: never 0, at most 2, equal to the device ratio up to 2 and exactly 2 from there on |
| Widget.MeasureText | src/components/ui/magic-text-reveal.tsx:95-109 | the fallback is 200 × 60 without a window or context; otherwise width and height are the least whole pixels at or above textWidth + fontSize/2 and 1.4·fontSize |
| Widget.BasePadding | src/components/ui/magic-text-reveal.tsx:481 | the padding is the larger of 20 px and 0.3·fontSize on a phone, and of 40 px and 0.5·fontSize elsewhere |
| Widget.WrapperSize | src/components/ui/magic-text-reveal.tsx:480-493 | each dimension is the smaller of the margin share of the container and the larger of the text plus padding on both sides and the 120 × 60 or 200 × 100 minimum: at most each, and equal to one of them |
| Widget.CanvasExtent | src/components/ui/magic-text-reveal.tsx:397-398 | a canvas dimension is the whole part of the CSS size times the ratio |
| Widget.ThrottleHalves | src/components/ui/magic-text-reveal.tsx:426-432 | of the first n frame callbacks exactly n/2, rounded down, get past the throttle |
| Widget.MagicTextReveal.constructor | src/components/ui/magic-text-reveal.tsx:56-69 | the first render: not hovered, not shown, no particles, zero sizes, counter 0 |
| Widget.MagicTextReveal.MouseEnter | src/components/ui/magic-text-reveal.tsx:519-522 | `isHovered` and `hasBeenShown` become true and nothing else changes |
| Widget.MagicTextReveal.MouseLeave | src/components/ui/magic-text-reveal.tsx:524-528 | `isHovered` is cleared only when `resetOnMouseLeave` or the text was never shown; `hasBeenShown` never reverts |
| Widget.MagicTextReveal.RestartAnimation | src/components/ui/magic-text-reveal.tsx:423-424 | restarting the animation effect resets the frame counter and nothing else |
| Widget.MagicTextReveal.AnimationFrame | src/components/ui/magic-text-reveal.tsx:425-460 | odd frames change nothing but the counter. An even frame advances the frame clock. With a canvas and particles, it ticks every particle by the elapsed seconds, makes `showText` equal `isHovered` and draws `Batched` of the new particles |
| Widget.MagicTextReveal.UpdateTextDimensions | src/components/ui/magic-text-reveal.tsx:112-115 | the text dimensions become `MeasureText`, and a resize timer is armed exactly when both are non-zero |
| Widget.MagicTextReveal.HandleResize | src/components/ui/magic-text-reveal.tsx:475-477 | a resize replaces any pending timer with one new timer |
| Widget.MagicTextReveal.ResizeTimerFires | src/components/ui/magic-text-reveal.tsx:477-497 | the timer is spent; with a wrapper and non-zero text dimensions the wrapper takes `WrapperSize`, otherwise it keeps its size |
| Widget.MagicTextReveal.RenderCanvas | src/components/ui/magic-text-reveal.tsx:391-420 | without a wrapper of non-zero size, a canvas or a 2-D context, nothing is drawn and the particles are kept; otherwise the particles become a fresh array holding `Sampled` of the canvas raster and are drawn once |
| Widget.HoverSticks | src/components/ui/magic-text-reveal.tsx:519-528 | with `resetOnMouseLeave` off, after one enter the component stays hovered through any number of leaves |
| ContactForm.GetButtonText | src/App.tsx:145-154 | "Transmitting..." exactly for 'submitting', "Data Transmitted" exactly for 'success', "Initiate Data Transfer" exactly for every other status |
| ContactForm.Form.constructor | src/App.tsx:29-30 | the form starts ready: not submitting, status 'normal' |
| ContactForm.Form.Edit | src/App.tsx:930-948 | typing changes only the named input's value |
| ContactForm.Form.Submit | src/App.tsx:109-117 | `isSubmitting` is set and the status is 'submitting' before the fields are posted; the post carries the fields as they were |
| ContactForm.Form.Settle | src/App.tsx:118-143 | whether the post resolves or throws, the status becomes 'success' and one reset timer is armed; the outcome changes nothing |
| ContactForm.Form.TimerFires | src/App.tsx:127-131 | the form is cleared, the status is 'normal' and `isSubmitting` is false, so the button is enabled again |
| ContactForm.PhaseShown | src/App.tsx:954 | the button is disabled exactly when the status is not 'normal', and its label names the phase: sending, sent or idle |
| ContactForm.SubmitRound | src/App.tsx:109-143 | a full round with either outcome posts exactly the filled-in fields once and leaves the form empty and ready |
| ScrollFlags.ScrollTopImpliesScrolling | src/App.tsx:71-72 | `showScrollTop` (scrollY > 500) implies `isScrolling` (scrollY > 50), and the header alone is compact exactly for 50 < scrollY ≤ 500 |
| ScrollFlags.ScrollWatcher.constructor | src/App.tsx:26-27 | both flags start false with nothing scheduled |
| ScrollFlags.ScrollWatcher.OnScroll | src/App.tsx:67-77 | a scroll event schedules a callback only when `ticking` is clear, and sets `ticking` |
| ScrollFlags.ScrollWatcher.FrameFires | src/App.tsx:69-74 | the callback sets both flags from the scroll position it reads and clears `ticking` |
| ScrollFlags.ScrollBurst | src/App.tsx:64-81 | any burst of scroll events leaves at most one callback pending |

## Left out

- Canvas calls are foreign calls: `fillText`, `clearRect`, `getImageData`, `measureText`, `fillRect`, shadows and `ctx.scale`. The raster and the text width are inputs, and so are whether the wrapper and canvas are mounted and whether `getContext("2d")` returns a context. Resizing the canvas before that check is not modelled as a separate effect: its size is derived from the wrapper size. The batches are the model's output in place of drawing.
- Randomness and clocks are parameters: `Math.random`, `Date.now` and `performance.now`. `Date.now` in the renderer is read once per particle, so it is a function of the particle index.
- `sin`, `cos` and `sqrt` are supplied functions with stated laws.
- `Simulator.Contain`: `cos(atan2(dy, dx))` and `sin(atan2(dy, dx))` are taken as the exact unit vector (dx/d, dy/d), and as (1, 0) at the origin.
- Reals stand for IEEE doubles throughout. Rounding error, NaN and the infinities are not modelled.
- `Math.round` and `Math.ceil` are exact.
- The colour string is modelled as the `Rgba` value it prints, and printing is assumed one-to-one.
- `Simulator.JitterScale`: with `spread` 0 a particle exactly on its target gets jitter scale 1. In the code the quotient is 0/0, which makes its position NaN.
- `Sampler.TransformedDensity`: `density` is an integer. A fractional density would give a fractional stride, which the raster reads do not model.
- Sampler.ByteAt: a read past the end of the raster gives 0, as JavaScript's `undefined > 0` is false.
- `Widget.CanvasExtent`: the canvas attribute's conversion modulo 2^32 for huge sizes is not modelled.
- Timing is not modelled: `requestAnimationFrame`, `cancelAnimationFrame`, the 100 ms and 2 s timer delays, and React's batching of state updates. Pending callbacks and timers are counters or flags, `setState` takes effect at once, and an effect restart is the explicit `RestartAnimation`.
- A bound on how far an idle particle can wander over many ticks is not claimed. Each tick removes only 8 % of the excess beyond `spread`, and the drift it follows is not bounded in the model.
- `ContactForm.Form.Submit` requires the button to be enabled. The handler itself has no guard, but it is reached only through the submit button, which is disabled while `isSubmitting` is set.
- The `fetch` POST is a boolean outcome. The `FormData` is the map of input values. The error log is not modelled.
- The rest of the page is not part of this model, because it has no logic of its own:
  - `src/App.tsx`'s layout, static data and in-view hooks;
  - the `handleMouseMove` tilt;
  - `src/components/ui/lamp.tsx` and `src/components/ui/timeline.tsx`;
  - `vite.config.ts`.
- The particle fields `velocityX`, `velocityY`, `angle`, `speed` and `floatingOffsetX/Y` are written once and never read. They are kept in the record but nothing is proved about them.
