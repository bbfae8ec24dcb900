# Particle-art core in Dafny

This project models the discrete core of the 3D-Particles app. The app draws
30000 particles that fly toward target points. The targets come from rendered
text, an uploaded image, a glTF model, or a random box, and per-frame forces
move the particles.

The model covers:

- **The image sampler worker** (`src/workers/imageSampler.ts`). It works on
  the 512x512 canvas an image was drawn into:
  - the fit geometry;
  - the 256-bin brightness histogram;
  - the quantile threshold and the scan stride;
  - the keep predicate;
  - the sparse fallback that appends a relaxed second pass;
  - the mapping of kept pixels to points and colours.

  The main-thread fallback of `setTargetsFromImage` runs the same stages with
  three differences: its keep rule has no white-background test, it does not
  clamp the saturation floor into [0, 1], and it does not raise the sample
  count to 1. The last one changes nothing observable, because the stride
  already uses `max(1, targetSamples)`. The corrected fallback closes the
  first two differences, and the model proves it computes the worker's
  result.
- **The target samplers of `src/components/ParticleScene.tsx`**:
  - text font fitting and the stride-3 text scan;
  - replication of a sample into the 30000 slots, and the 6000-slot batched
    commit;
  - the mesh vertex stride with its empty guard;
  - the random target box.
- **The retargeting cycle** that drives `targetsReady` and the loading flag.
- **The per-particle step of `useFrame`**:
  - which velocity blocks run under which mode, effect, readiness and pointer
    state;
  - damping by 0.92 and integration;
  - the `grid` effect's lattice;
  - the one-second FPS window.

Modules:

| module | contents |
|---|---|
| `Base` | `Option`, 3D vectors, and the integer views of `Math.round`, `floor(sqrt)` and `round(cbrt)` |
| `Canvas` | the RGBA canvas buffer and the strided raster scan |
| `ImageSampler` | the worker and the main-thread image pipeline |
| `TextSampler` | font fitting and the text scan |
| `Targets` | replication, batched commit, mesh sampler, random targets |
| `Lattice` | the grid side, base-`gridN` digits and lattice points |
| `Simulation` | force gating and the particle step |
| `Fps` | the frame-rate window |
| `Retarget` | the sampling cycle and its flags |

Some inputs become parameters, because they are I/O, clocks, randomness or
calls the model cannot see:

- the decoded pixels;
- `measureText` (a width function);
- `Math.random()` (draws in [0, 1));
- `Math.pow(c/255, gamma)` (a 256-entry table);
- HSL-to-RGB;
- the curl noise and the `sin`/`hypot`/`exp` parts of each force (a
  per-particle `Local` record);
- `performance.now()`;
- the outcome of each awaited load.

## Model

| member | source | states |
|---|---|---|
| Base.Round | src/workers/imageSampler.ts:18-19 | `Math.round` gives an integer within half a unit of its argument, halves rounding up |
| Base.ISqrt | src/workers/imageSampler.ts:52 | `floor(sqrt(n))` is the integer r with r² ≤ n < (r+1)² |
| Base.RoundCbrt | src/components/ParticleScene.tsx:499 | `round(cbrt(n))` is the r with (2r-1)³ ≤ 8n < (2r+1)³, i.e. the nearest integer to the cube root |
| Base.ClampReal | src/workers/imageSampler.ts:26 | `max(lo, min(hi, v))` lies in [lo, hi]; it is v inside the range, lo below it and hi above it |
| Canvas.ByteOffset | src/workers/imageSampler.ts:61-62 | every scanned `(y*size+x)*4` and its alpha byte at +3 lie inside the 4·512² buffer |
| Canvas.RowScan | src/workers/imageSampler.ts:60 | the inner `x += step` loop visits exactly the columns `from + k*step` below 512, in increasing order, starting at `from` |
| Canvas.RowScanCovers | src/workers/imageSampler.ts:60 | the inner loop misses no column `from + k*step` below 512 |
| Canvas.RasterScan | src/workers/imageSampler.ts:59-60 | the nested stride scan only visits on-canvas pixels, none above its first row |
| Canvas.RasterScanCovers | src/workers/imageSampler.ts:59-60 | the nested scan visits every pixel whose column and row offset are multiples of the stride, in row-major order |
| Canvas.RasterScanOnGrid | src/workers/imageSampler.ts:59-60 | the nested scan visits only pixels whose column and row offset are multiples of the stride, so with RasterScanCovers it visits exactly the stride grid |
| ImageSampler.Resolve | src/workers/imageSampler.ts:26-58 | a missing field takes its default and a given one is used; the alpha, saturation and white floors are clamped into their ranges and kept unchanged when already inside; white skipping and colour fidelity are on exactly when sent as true; the sample count is clamped to [1, 30000] |
| ImageSampler.Place | src/workers/imageSampler.ts:17-21 | under `contain` the larger drawn side equals the canvas and both fit; under `cover` the smaller side equals it and both cover it; the offsets centre the drawing; PlaceKeepsAspect gives the common scale |
| ImageSampler.PlaceKeepsAspect | src/workers/imageSampler.ts:17-19 | both sides are scaled by one factor: the side that sets the scale (the longer under `contain`, the shorter under `cover`) is drawn at 512, and the other is the image's aspect ratio times 512, rounded to within half a pixel |
| ImageSampler.NormX | src/workers/imageSampler.ts:55-73 | a column inside the drawn rectangle maps into [-spanX/2, spanX/2); NormXPitch gives the linear map itself |
| ImageSampler.NormY | src/workers/imageSampler.ts:56-74 | a row inside the drawn rectangle maps into (-spanY/2, spanY/2], pointing up; NormYPitch gives the linear map itself |
| ImageSampler.NormXPitch | src/workers/imageSampler.ts:55-73 | the left edge of the drawn rectangle lands on -spanX/2, and each column to the right adds exactly 50/512, whatever the image |
| ImageSampler.NormYPitch | src/workers/imageSampler.ts:56-74 | the top edge of the drawn rectangle lands on spanY/2, and each row down subtracts exactly 50/512, the same pitch as a column, so the image is not distorted |
| ImageSampler.Brightness | src/workers/imageSampler.ts:63-66 | the mean gamma-corrected channel scaled by 255 lies in [0, 255] |
| ImageSampler.Bin | src/workers/imageSampler.ts:31-34 | every pixel's bin `min(255, round(avg*255))` is in [0, 255] |
| ImageSampler.Saturation | src/workers/imageSampler.ts:67-70 | HSV saturation of the linear channels lies in [0, 1] |
| ImageSampler.Keep | src/workers/imageSampler.ts:71-72 | a kept pixel is opaque beyond the alpha floor; under the main-thread rule every such pixel brighter than the threshold is kept |
| ImageSampler.KeepFacts | src/workers/imageSampler.ts:71-72 | a pixel with alpha ≤ alphaMin is never kept; under the worker rule, with white skipping on, a low-saturation bright pixel is never kept; lowering the threshold never drops a kept pixel |
| ImageSampler.Histogram | src/workers/imageSampler.ts:28-38 | each bin counts exactly the opaque pixels of that brightness, and the bins sum to the number of opaque pixels (`total`) |
| ImageSampler.Search | src/workers/imageSampler.ts:43-46 | the bin loop breaks at the first bin from `k` whose running count reaches the target, and runs off the end only when no bin does |
| ImageSampler.SearchBreaks | src/workers/imageSampler.ts:43-46 | with a target count at most the total, the bin search always breaks, at the first bin whose running count reaches it, so the default 20 is never used |
| ImageSampler.Threshold | src/workers/imageSampler.ts:39-50 | the threshold is in [0, 200]; it is 0 when the quantile is ≤ 0; otherwise it is the first bin reaching `floor(total*p)` for the clamped p, capped at 200 |
| ImageSampler.ThresholdMonotone | src/workers/imageSampler.ts:39-47 | a larger quantile never yields a smaller threshold for the same histogram |
| ImageSampler.Stride | src/workers/imageSampler.ts:51-52 | the stride is ≥ 1, and step²·targetSamples ≤ 512² < (step+1)²·targetSamples |
| ImageSampler.Select | src/workers/imageSampler.ts:59-72 | the kept positions are exactly the scanned positions whose pixel passes the keep predicate |
| ImageSampler.SelectAppend | src/workers/imageSampler.ts:59-72 | selection keeps scan order: selecting from one scan followed by another is the concatenation of the two selections |
| ImageSampler.SelectOne | src/workers/imageSampler.ts:71-72 | a single scanned pixel is emitted exactly when it is kept |
| ImageSampler.SelectMonotone | src/workers/imageSampler.ts:59-72 | a lower threshold keeps at least as many pixels of the same scan |
| ImageSampler.Channel | src/workers/imageSampler.ts:77-79 | every colour channel is in [0, 1], and under colour fidelity it equals byte/255, otherwise the gamma value of the byte |
| ImageSampler.Emit | src/workers/imageSampler.ts:73-80 | points and colours grow in lock-step, one per kept pixel, with z = 0, x and y from the pixel, colours in [0, 1]: byte/255 per channel under fidelity, the gamma values of the pixel's bytes otherwise |
| ImageSampler.Scan | src/workers/imageSampler.ts:59-83 | one strided pass yields lock-step points and colours, at most one per scanned pixel |
| ImageSampler.RelaxedThreshold | src/workers/imageSampler.ts:85 | `max(5, floor(th*0.85))` is at least 5, and exceeds th exactly when th < 5 |
| ImageSampler.SampleCanvas | src/workers/imageSampler.ts:28-111 | the full pipeline yields lock-step points and colours, every z = 0, every channel in [0, 1] |
| ImageSampler.SparseFallback | src/workers/imageSampler.ts:84-110 | the second pass runs only when the flat array has fewer than 1500 entries; it appends, so the primary result is a prefix; with th0 ≥ 5 the result at least doubles |
| ImageSampler.ScanWithinSpan | src/workers/imageSampler.ts:55-74 | on a canvas transparent outside the drawn rectangle, every point lies in the box [-spanX/2, spanX/2) × (-spanY/2, spanY/2] |
| ImageSampler.WorkerSample | src/workers/imageSampler.ts:1-114 | the worker's result for a decoded image is well formed |
| ImageSampler.Forward | src/components/ParticleScene.tsx:714-735 | the count, fit, fidelity, quantile and gamma come from the outer scene or take their defaults; the alpha, saturation and white floors and white skipping always take the defaults |
| ImageSampler.RequestFrom | src/components/ParticleScene.tsx:158-169 | every option is posted, each equal to its prop; the count is capped at 30000 and unchanged below the cap |
| ImageSampler.UnforwardedDefaultsApply | src/components/ParticleScene.tsx:714-735 | whatever the outer scene is given, the worker runs with alpha floor 20, saturation floor 0.15, white skipping on and white floor 220 |
| ImageSampler.MainThreadConfig | src/components/ParticleScene.tsx:223-255 | the main thread uses fit, quantile, gamma and fidelity as given, clamps the alpha floor into [0, 255], uses the saturation floor unclamped, and caps the count at 30000 |
| ImageSampler.MainThreadConfigAgrees | src/components/ParticleScene.tsx:223-268 | the main thread's parameters agree with the worker's reading of the same props except for a saturation floor below 0 or above 1 and a count below 1, where they differ |
| ImageSampler.MainThreadSampleAsWritten | src/components/ParticleScene.tsx:213-309 | the main-thread fallback as written, whose keep rule has no white-background test, still yields well-formed samples |
| ImageSampler.MainThreadKeepsWhitePixel | src/components/ParticleScene.tsx:268 | an opaque white pixel is kept by the main-thread fallback and dropped by the worker, at any threshold up to 200 |
| ImageSampler.CorrectedConfig | src/workers/imageSampler.ts:26-58 | the corrected fallback's parameters, from the main thread's own props, have every floor in range and a count in [1, 30000] |
| ImageSampler.MainThreadSample | src/components/ParticleScene.tsx:195-309 | the corrected fallback yields well-formed samples |
| ImageSampler.MainThreadMatchesWorker | src/components/ParticleScene.tsx:158-309 | the corrected fallback computes exactly the worker's result for the request the host would have posted |
| ImageSampler.FallbackDropsWhites | src/workers/imageSampler.ts:71-72 | with the corrected fallback's parameters, no kept pixel is white background |
| ImageSampler.CorrectedDropsWhitePixel | src/workers/imageSampler.ts:71-72 | under the host's defaults the corrected fallback drops the opaque white pixel the as-written one keeps |
| TextSampler.ShrinkFont | src/components/ParticleScene.tsx:111-115 | from 360 in steps of -10 it ends on a size that fits 0.88·512 or on 40; every size passed was above 48 and too wide |
| TextSampler.GrowFont | src/components/ParticleScene.tsx:116-118 | it grows only for narrow text of at most 2 trimmed characters below 420; then it grows at least once, by 8, until the text is 0.78·512 wide or the size reaches 420, ending below 428; every size passed was too narrow |
| TextSampler.FitFont | src/components/ParticleScene.tsx:110-118 | the chosen size is in [40, 428), and for longer text it is at most 360 and fits or is 40 |
| TextSampler.TrimStart | src/components/ParticleScene.tsx:116 | removes exactly the leading ECMAScript white space |
| TextSampler.TrimEnd | src/components/ParticleScene.tsx:116 | removes exactly the trailing ECMAScript white space |
| TextSampler.TextSelect | src/components/ParticleScene.tsx:124-129 | the kept positions are exactly the scanned ones with alpha > 200 and red > 200 |
| TextSampler.TextSelectAppend | src/components/ParticleScene.tsx:123-129 | text selection keeps scan order: selecting from one scan followed by another is the concatenation of the two selections |
| TextSampler.TextSelectOne | src/components/ParticleScene.tsx:124-129 | a single scanned pixel is emitted exactly when it passes the text test |
| TextSampler.TextScan | src/components/ParticleScene.tsx:123-129 | a pixel is kept exactly when its column and row are multiples of 3 and it passes the text test (alpha above 200 and red above 200): every kept pixel is on the stride-3 grid and passes, and every grid pixel that passes is kept |
| TextSampler.TextPoint | src/components/ParticleScene.tsx:130-132 | a canvas pixel with a depth draw in [0, 1) maps into [-25, 25) × (-25, 25] × [-2, 2); TextPointPitch gives the linear map itself |
| TextSampler.TextPointPitch | src/components/ParticleScene.tsx:130-131 | pixel (0, 0) lands on the square's corner (-25, 25), and each column adds 50/512 to x while each row subtracts 50/512 from y |
| TextSampler.TextHue | src/components/ParticleScene.tsx:134-135 | for a draw in [0, 1) the hue lies in [start, end) for a positive range and is exactly start for an empty or reversed one |
| TextSampler.TextSample | src/components/ParticleScene.tsx:120-140 | one point and one colour per kept pixel, in scan order, each point mapped from its pixel |
| TextSampler.TextPointsInSquare | src/components/ParticleScene.tsx:130-133 | with depth draws in [0, 1) every text point lies in the 50 × 50 × 4 box |
| Targets.ReplicateAsWritten | src/components/ParticleScene.tsx:141-150 | an empty sample gives NaN targets (colours kept); otherwise slot i gets sample i mod M, and a colour slot keeps its value where the sample colour is absent |
| Targets.EmptySampleWritesNaN | src/components/ParticleScene.tsx:143 | an empty sample overwrites every target with NaN |
| Targets.Replicate | src/components/ParticleScene.tsx:141-150 | with the mesh path's empty guard: an empty sample leaves both buffers untouched; any other fills every slot by `i mod M` |
| Targets.BatchedCommit | src/components/ParticleScene.tsx:173-191 | the chunked loop writes every slot of [0, 30000) once, in ascending order, ends its chunks at 6000, 12000, …, 30000, and leaves the same buffers as one-shot replication |
| Targets.CopyChunk | src/components/ParticleScene.tsx:176-185 | one chunk extends the replicated prefix from its start to its end, writing the slots in ascending order and leaving later colours alone |
| Targets.ReplicationUnique | src/components/ParticleScene.tsx:141-150 | any buffers that replicate a non-empty sample are the guarded replication's result |
| Targets.MeshStep | src/components/ParticleScene.tsx:342-343 | the vertex stride is ≥ 1 and is the floor of count / max(1, T), or 1 when that is 0 |
| Targets.Visited | src/components/ParticleScene.tsx:344 | the visited vertex indices are `from + k*step`, all below the count, and every such index below the count is visited |
| Targets.SampleMesh | src/components/ParticleScene.tsx:341-348 | one point per visited vertex, the vertex scaled by 0.2; empty exactly for a mesh with no vertices |
| Targets.SampleMeshes | src/components/ParticleScene.tsx:338-350 | the traversal's points are empty exactly when every mesh is empty; SampleMeshesAppend and SampleMeshesOne give its contents and order |
| Targets.SampleMeshesAppend | src/components/ParticleScene.tsx:337-350 | the traversal concatenates the meshes' points in scene order: the points of the meshes in `a ++ b` are those of `a` followed by those of `b` |
| Targets.SampleMeshesOne | src/components/ParticleScene.tsx:338-348 | a single mesh node contributes exactly its own sampled points |
| Targets.CommitMesh | src/components/ParticleScene.tsx:335-364 | an empty result leaves both buffers untouched; otherwise every target is replicated; colours are never touched |
| Targets.RandomTarget | src/components/ParticleScene.tsx:369-371 | draws in [0, 1) give a target in [-25, 25) × [-15, 15) × [-25, 25) |
| Targets.RandomTargets | src/components/ParticleScene.tsx:367-373 | every slot's target lies in that box, and colours are not touched |
| Lattice.GridSide | src/components/ParticleScene.tsx:499 | gridN is in [8, 31]; with m = min(particleCount, 30000) it is 8 when 8m < 15³, and otherwise it is the integer nearest the cube root of m, (2n-1)³ ≤ 8m < (2n+1)³ |
| Lattice.LatticeIndex | src/components/ParticleScene.tsx:557-559 | the three digits lie in [0, gridN) and spell i mod gridN³ in base gridN |
| Lattice.LatticePeriodic | src/components/ParticleScene.tsx:557-559 | particles i and i + gridN³ get the same digits |
| Lattice.LatticeCoord | src/components/ParticleScene.tsx:560-562 | a lattice coordinate lies in [-22.5, 22.5], with the ends at digit 0 and gridN-1 |
| Lattice.LatticePoint | src/components/ParticleScene.tsx:557-562 | every coordinate of a particle's lattice point lies in [-22.5, 22.5] |
| Lattice.LatticePointPeriodic | src/components/ParticleScene.tsx:557-562 | particles gridN³ apart share their lattice point |
| Simulation.LocalValue | src/components/ParticleScene.tsx:505-637 | the wind, vortex and pointer blocks act in the xy plane, the waterfall block only along y, and the grid block adds nothing at the lattice point |
| Simulation.NoBlockNoForce | src/components/ParticleScene.tsx:505-631 | when no block runs for the particle, the force is zero |
| Simulation.ForceSplits | src/components/ParticleScene.tsx:505-631 | the force is the sum over the noise and effect blocks plus the sum over attraction and the two pushes |
| Simulation.StepParticle | src/components/ParticleScene.tsx:633-634 | the position moves by the new velocity, and with zero force the velocity is only damped by 0.92 |
| Simulation.Gating | src/components/ParticleScene.tsx:474-615 | at most one effect block runs (the selected one), and only when motion is allowed; explode runs exactly under the explode effect; attraction runs exactly when the effect is not explode and the targets are ready; noise runs exactly when motion is allowed |
| Simulation.StaticImageBlocks | src/components/ParticleScene.tsx:474-607 | for mode image with effect none, only attraction, the pointer push and the anti-center push can run |
| Simulation.StaticImageIgnoresAmbient | src/components/ParticleScene.tsx:474-607 | for mode image with effect none, the force is the sum of the pull blocks alone |
| Simulation.TargetsIgnored | src/components/ParticleScene.tsx:603-615 | while the targets are not ready, and under explode, changing a particle's target does not change its step |
| Simulation.FreeFlight | src/components/ParticleScene.tsx:474-639 | with no block running, the velocity is multiplied by 0.92 and added to the position |
| Simulation.ApproachesTarget | src/components/ParticleScene.tsx:486-639 | under attraction alone, a particle at rest moves strictly closer to its target on every axis without overshooting, for a microphone level in [0, 1] and a speed up to 100 |
| Simulation.PullGain | src/components/ParticleScene.tsx:486-492 | the damped attraction gain 0.92·(0.06 + 0.2·amp)·step lies in (0, 1) |
| Simulation.AttractOnly | src/components/ParticleScene.tsx:608-631 | with the targets ready and no pointer or anti-center push in range, a static image's force is the attraction pull |
| Simulation.PullsAlone | src/components/ParticleScene.tsx:612-631 | the pull blocks add the attraction pull alone when the pointer and the anti-center push are out of range |
| Simulation.MovesCloser | src/components/ParticleScene.tsx:611-639 | one damped pull with a gain in (0, 1) lands strictly between a coordinate and its target |
| Simulation.StepAll | src/components/ParticleScene.tsx:499-640 | the frame loop updates every slot from its own quantities, position, target and velocity, with the lattice point `GridTarget(particleCount, i)` of its own index |
| Simulation.GridPull | src/components/ParticleScene.tsx:557-566 | under the grid effect, slot i is pulled toward its own lattice point by `(lattice - p)·0.08·motionSpeed·step` |
| Simulation.GridTarget | src/components/ParticleScene.tsx:499-562 | the point the grid block pulls a slot toward lies in the 45-unit cube |
| Fps.FpsTick | src/components/ParticleScene.tsx:650-657 | reports exactly when at least 1000 ms have elapsed; the report is within 0.5 of frames·1000/elapsed and never exceeds the frames counted; after a report the window is (0, now), otherwise the count grows by one |
| Fps.RateAtMostFrames | src/components/ParticleScene.tsx:652-653 | over at least a second, the per-second rate is in [0, frames] |
| Fps.FpsRun | src/components/ParticleScene.tsx:650-657 | over a run there are at most as many reports as frames; the final window opened at the first `last` or at one of the clock readings, counts at most every frame, and is the grown original window when nothing was reported |
| Fps.QuietRun | src/components/ParticleScene.tsx:650-657 | frames inside the window only count up and report nothing |
| Fps.ReportsBounded | src/components/ParticleScene.tsx:650-657 | every report over a run is in [0, frames counted before it + frames in the run] |
| Retarget.SourceFor | src/components/ParticleScene.tsx:380-385 | `randomCloud` or the random mode choose random targets; otherwise text, image and glTF modes choose their samplers |
| Retarget.RouteImage | src/components/ParticleScene.tsx:157-212 | the image path uses the worker when it succeeds, the main thread when it fails and a decode route works, and throws only when every route fails |
| Retarget.CycleFlagsAsWritten | src/components/ParticleScene.tsx:376-389 | the cycle settles (ready, not loading) exactly when the sampler returns, and stays in flight when it throws |
| Retarget.Cycle | src/components/ParticleScene.tsx:376-389 | the corrected cycle always settles, and commits new targets exactly when the sampler returned |

## Left out

- Rendering is not modelled: shaders, bloom, camera placement, the draw
  range, and the initial random scatter of positions. None has a checkable contract.
- I/O is not modelled: `fetch`, `createImageBitmap`, `drawImage`,
  `getImageData`, `measureText`, the glTF loader, worker messaging and the
  microphone analyser. Their results are inputs.
- Concurrency is not modelled. The `setTimeout` yields between chunks and
  overlapping retargeting cycles are left out, and each commit is one
  sequential loop.
- Points and colours are sequences of 3D vectors rather than flat `number[]`
  arrays. The sparse test is written `3 * |pts| < 1500`, which is the flat
  length.
- Float32 rounding of stored targets and IEEE arithmetic are not modelled.
  Reals are exact, apart from the NaN outcome of an empty replication, which
  is modelled explicitly.
- `Math.pow` gamma enters as a table with entries in [0, 1]. The gammas the
  host offers are positive, so `(c/255)^gamma` lies in [0, 1].
- `String.prototype.trim` is modelled on characters, not UTF-16 code units,
  and the glyph rendering is a given canvas.
- Effect `rainbow` only changes a shader uniform, so no velocity block is
  modelled for it.
- Simulation.Contribution: the pointer block divides by the pointer
  distance, which is NaN at distance 0. The model takes the pointer
  direction as an input, and a `Local` that breaks the source's clamping
  (`LocalOk`) contributes nothing.
- Simulation.ApproachesTarget: it is stated only for a particle at rest,
  with a microphone level in [0, 1] and a speed up to 100. A moving particle
  can overshoot.
- Simulation.StepAll: the per-particle `Local` quantities are inputs. The
  model does not tie them to the particle's position. The lattice point, in
  contrast, is computed from the frame's particle count and the slot index.
- TextSampler.TextSample: colours are stated only by count. The HSL
  conversion is opaque, and TextHue bounds the hue.
- TextSampler.FitFont: `measureText` is any function of the size. The model
  does not assume wider text at larger sizes.
- Targets.BatchedCommit: it requires a non-empty sample. The empty sample
  is the `NaNTargets` outcome of `Targets.ReplicateAsWritten`.
- ImageSampler.WorkerSample: the worker's own decode fallback
  (`createImageBitmap(url)`) and its error reply are folded into the
  `workerOk` input of `Retarget.RouteImage`.
- Lattice: the unused `gridStep` constant (src/components/ParticleScene.tsx:501) is not modelled.

## Findings

| source | as written | input that shows it | evidently intended | confidence | as-written member | corrected member |
|---|---|---|---|---|---|---|
| src/components/ParticleScene.tsx:141-150 | the text path and the worker path replicate with `i % (pts.length/3)` and no empty guard; the main-thread path's `max(1, …)` only turns this into a read past the end | an empty sample (blank text, a fully transparent image): `i % 0` is NaN, so every target becomes NaN | leave the targets alone on an empty sample, as the mesh path does at line 351 | not executed | Targets.ReplicateAsWritten, Targets.EmptySampleWritesNaN | Targets.Replicate |
| src/components/ParticleScene.tsx:268-295 | the main-thread fallback keeps `a0 > alphaMin && (bright > th \|\| sat >= satMin)`, with no white-background test | an opaque white pixel (255, 255, 255, 255) under the defaults | the worker's rule, which drops low-saturation pixels at least as bright as the white floor, with the worker's clamped saturation floor | not executed | ImageSampler.MainThreadSampleAsWritten, ImageSampler.MainThreadKeepsWhitePixel | ImageSampler.MainThreadSample, ImageSampler.MainThreadMatchesWorker, ImageSampler.FallbackDropsWhites, ImageSampler.CorrectedDropsWhitePixel |
| src/components/ParticleScene.tsx:376-389 | the flag updates follow the awaited sampler with no `try`/`finally` | a glTF load that rejects, or an image whose worker, `fetch` and `Image` routes all fail: `targetsReady` stays false and loading stays true | settle the flags whatever the sampler does | not executed | Retarget.CycleFlagsAsWritten, Retarget.StuckCycleNeverAttracts | Retarget.Cycle, Retarget.CycleResumesAttraction |
