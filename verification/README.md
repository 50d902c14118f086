# Verified model of the js-feasibility sketches

This project is a Dafny model of the pieces of logic in the js-feasibility
repository that can be stated exactly once canvas drawing and DOM plumbing
are stripped away. Each piece is a module of pure functions over immutable
records.

- **Prototile** (`prototile.dfy`): the Krinkle prototile generator of the
  single-file tiling application (`KrinkleGenerator.generatePrototile`).
  - It builds the two direction sequences `l_seq` and `u_seq` from (m, k).
  - It walks the boundary path forward along `l_seq`, then backward along the
    reversed `u_seq`.
  - It also holds the rule that derives the symmetry order n from (k, m, t,
    offset).
  - The direction-to-vector map `getVector` is a function parameter into
    exact real vectors.
- **Viewport** (`viewport.dfy`): the pan/zoom/resize/`autoCenter`
  transitions of both `Renderer` classes. The two differ only in the zoom
  cap: 20 in `app.js`, 10 in `src/renderer.js`.
- **TilingApp** (`tiling_app.dfy`): `updateTiling` of the single-file
  application.
  - It rejects n < k.
  - Otherwise it generates the prototile, hands it to the renderer and
    centres the view on it.
- **Radial** (`radial.dfy`): the placeholder `generate(M, A, B, C)` of
  `src/krinkle.js`.
  - It makes `2M` sectors of five tiers each.
  - Each tier is a four-point polygon distorted by the integer "jaggedness".
  - `_polarToCartesian` is a function parameter, and angles are measured in
    turns.
- **Primes** (`primes.dfy`): `isPrime` (6i ± 1 trial division) and
  `getTwoLargestFactors` (downward search from ⌊√num⌋) of the prime-slicer
  game.
- **Slicer** (`slicer.dfy`): the scoring state machine of the prime-slicer
  game.
  - It covers the fall-off loop and the slice handler.
  - It covers the 60-frame effect countdown and its completion action: a miss
    for a prime, two factor circles and a score for a composite.
  - It covers spawning, game over at 100 misses, and the start button.
  - Physics and pointer geometry are abstracted into index sets: the circles
    that fell off, the circles that were hit.
- **GpuTable** (`gpu_table.dfy`): `redrawTable` of the GPU usage page.
  - The table is modelled as a list of rows of (kind, colSpan, content)
    cells.
  - Nodes are laid out column-major on an 8-slot grid.
- **LedBoard** (`led_board.dfy`): the `Board` constructor's settings merge,
  `init`, and the part of `anim` that decides on the 500 ms throttle and on
  message changes.
- **Common** (`common.dfy`): the shared types (vectors, polygons, options)
  and JavaScript's truncating remainder `%`.

Randomness, time and physics are parameters of the model:
- the draw of `Math.random()` for a spawned number;
- `Date.now()`;
- whether a spawn happens this frame;
- which circles fell off or were hit.

Facts about the code that the model keeps:
- The prototile path has `2k + 3` points: the origin, `k + 1` forward points
  and `k + 1` backward points (tess/ModuloKrinkleTiling/app.js:278-310).
- `generatePrototile` has no early stop for short periods
  (tess/ModuloKrinkleTiling/app.js:254-324).
- `generatePrototile` only logs `n < k` and goes on generating
  (tess/ModuloKrinkleTiling/app.js:258-260). `updateTiling` rejects `n < k`
  before it calls the generator (tess/ModuloKrinkleTiling/app.js:379-383).
- The zoom cap is 20 in `app.js` (tess/ModuloKrinkleTiling/app.js:63) and 10
  in `src/renderer.js` (tess/ModuloKrinkleTiling/src/renderer.js:54).

## Model

| member | source | states |
|---|---|---|
| Prototile.Residues | tess/ModuloKrinkleTiling/app.js:264-274 | the residue list has one entry `(j*m) % k` (JavaScript remainder) for each lo <= j < k, in order |
| Prototile.SequenceContents | tess/ModuloKrinkleTiling/app.js:263-275 | `l_seq` is the k residues `(j*m) % k` for j = 0..k-1 followed by k; `u_seq` is k, the residues for j = 1..k-1, then 0; both have k + 1 entries |
| Prototile.LowerUpperPermutation | tess/ModuloKrinkleTiling/app.js:263-275 | `l_seq` and `u_seq` hold the same multiset of directions if and only if k >= 1 |
| Prototile.PathStructure | tess/ModuloKrinkleTiling/app.js:278-310 | the path starts at the origin, each forward point is its predecessor plus `v(l_seq[i])`, and each backward point is its predecessor minus `v(reverse(u_seq)[i])` |
| Prototile.PathLength | tess/ModuloKrinkleTiling/app.js:278-310 | the path has 2k + 3 points for k >= 1 (4 for k <= 0) |
| Prototile.PathEnd | tess/ModuloKrinkleTiling/app.js:291-310 | the path ends at the origin displaced by the vector sum of `l_seq` and then back by the vector sum of the reversed `u_seq` |
| Prototile.WalkEnd | tess/ModuloKrinkleTiling/app.js:292-296 | a walk along a direction list ends at its start plus (forward) or minus (backward) the vector sum of the list |
| Prototile.VecSumPermutation | tess/ModuloKrinkleTiling/app.js:291-310 | two direction lists with the same multiset have the same vector sum, whatever the direction vectors are |
| Prototile.ReversePermutation | tess/ModuloKrinkleTiling/app.js:304 | reversing `u_seq` keeps its multiset of directions |
| Prototile.PathCloses | tess/ModuloKrinkleTiling/app.js:263-313 | for every k >= 1 and every direction map, the final point of the path is the origin, so the closure error is zero |
| Prototile.PathOpenBelowOne | tess/ModuloKrinkleTiling/app.js:263-310 | for k <= 0 the path is origin, v(k), v(k) - v(0), -v(0), and it closes exactly when v(0) is the zero vector |
| Prototile.GeneratePrototile | tess/ModuloKrinkleTiling/app.js:254-324 | previous polygons are discarded and exactly one polygon is returned and kept; its path is the prototile path with the fixed fill and stroke; `n < k` is logged if and only if n < k, and never stops generation; the recorded end point is the path's final point for every input, and the origin when k >= 1 |
| Prototile.PrototilePolygon | tess/ModuloKrinkleTiling/app.js:312-321 | the pushed polygon carries the path, the fill `rgba(88, 166, 255, 0.4)`, the stroke `#58a6ff`, and the path's final point for every input (the origin when k >= 1) |
| Prototile.NormalModeAcceptance | tess/ModuloKrinkleTiling/app.js:370-383 | in normal mode with k >= 1, the validation `n >= k` passes exactly when t >= 1 |
| TilingApp.UpdateTiling | tess/ModuloKrinkleTiling/app.js:363-401 | when n < k only the status changes; otherwise exactly the one generated polygon is displayed, the generator keeps it, the view is `autoCenter` on its path, and the status shows n and the path's final point |
| TilingApp.AcceptedUpdateFramesClosedTile | tess/ModuloKrinkleTiling/app.js:389-399 | an accepted update with k >= 1 reports zero closure error and puts every vertex of the prototile on screen, at least a padding inside the canvas edges |
| TilingApp.NormalModeUpdate | tess/ModuloKrinkleTiling/app.js:370-383 | in normal mode with k >= 1, t < 1 leaves view, display and generator untouched, and t >= 1 shows a prototile |
| Viewport.Create | tess/ModuloKrinkleTiling/app.js:10-26 | a new renderer has unit scale, is not dragging, and has the world origin at the canvas centre |
| Viewport.Resize | tess/ModuloKrinkleTiling/src/renderer.js:68-75 | the canvas takes the window size and the world origin maps to the canvas centre; scale and drag state are kept |
| Viewport.Wheel | tess/ModuloKrinkleTiling/src/renderer.js:50-65 | the new scale lies in [0.1, cap] for any delta, equals `scale - deltaY * 0.001` whenever that is in range, is 0.1 when that is below 0.1 and the cap when it is above the cap, and nothing else changes |
| Viewport.AppWheel | tess/ModuloKrinkleTiling/app.js:58-69 | the single-file renderer's zoom keeps the scale in [0.1, 20] and changes nothing else |
| Viewport.ModuleWheel | tess/ModuloKrinkleTiling/src/renderer.js:50-65 | the module renderer's zoom keeps the scale in [0.1, 10] and changes nothing else |
| Viewport.WheelRoundTrip | tess/ModuloKrinkleTiling/src/renderer.js:52-54 | a wheel step followed by the opposite step restores the view when neither step hits a bound |
| Viewport.WheelMonotone | tess/ModuloKrinkleTiling/src/renderer.js:52-54 | from any scale up to the cap, scrolling up never zooms out; from a scale of at least 0.1, scrolling down never zooms in |
| Viewport.WheelLiftsToFloor | tess/ModuloKrinkleTiling/src/renderer.js:52-54 | from a scale below 0.1 (which `autoCenter` can produce), a downward scroll lifts the scale to 0.1, so scrolling down can zoom in |
| Viewport.FitBelowFloor | tess/ModuloKrinkleTiling/src/renderer.js:102-114 | a 20000-wide box on a 1000 x 1000 canvas gets fitted scale 1000/20100, below the wheel's 0.1 floor |
| Viewport.MouseDown | tess/ModuloKrinkleTiling/src/renderer.js:25-30 | dragging starts at the pointer; scale, offset and canvas are kept |
| Viewport.MouseMove | tess/ModuloKrinkleTiling/src/renderer.js:32-42 | while dragging, the offset moves by exactly the pointer delta and the pointer is recorded; without dragging nothing changes |
| Viewport.MouseUp | tess/ModuloKrinkleTiling/src/renderer.js:44-47 | dragging stops and nothing else changes |
| Viewport.DragPansByPointerDelta | tess/ModuloKrinkleTiling/app.js:33-50 | a press followed by any run of moves pans the view by the displacement from the press to the last pointer position |
| Viewport.MovesWithoutPressAreIgnored | tess/ModuloKrinkleTiling/src/renderer.js:32-42 | pointer moves without a press leave the view unchanged |
| Viewport.Bounds | tess/ModuloKrinkleTiling/src/renderer.js:92-100 | the accumulated box contains every path point and each of its four edges is attained by some point |
| Viewport.FitScale | tess/ModuloKrinkleTiling/src/renderer.js:102-114 | the fitted scale is at most 5 and non-negative, the padded box scaled by it fits within the canvas width and height, and the scale is the minimum: it is 5 or the box exactly fills the width or the height |
| Viewport.AutoCenter | tess/ModuloKrinkleTiling/src/renderer.js:89-124 | a missing or empty path leaves the view unchanged; otherwise the view frames the path's bounding box |
| Viewport.FrameBox | tess/ModuloKrinkleTiling/src/renderer.js:102-121 | the framed scale is in [0, 5], the padded box fits the canvas, the scale is 5 or the box exactly fills the width or the height, and the box centre lands on the canvas centre |
| Viewport.Recentre | tess/ModuloKrinkleTiling/app.js:118-127 | the offsets put the chosen world point at the canvas centre under the new scale |
| Viewport.FramedShowsPoint | tess/ModuloKrinkleTiling/src/renderer.js:102-121 | a point of the box lands on the canvas at least a padding (in screen units) from every edge |
| Viewport.AutoCenterShowsPath | tess/ModuloKrinkleTiling/app.js:90-130 | after `autoCenter` every point of the path is on screen at least a padding inside the canvas edges |
| Radial.Generate | tess/ModuloKrinkleTiling/src/krinkle.js:19-58 | the polygon cache is replaced by the returned list of 10M polygons (none for M <= 0); entry q is the tile of sector q / 5 and tier q % 5 + 1, with a four-point path and black stroke |
| Radial.SectorMajorOrder | tess/ModuloKrinkleTiling/src/krinkle.js:31-54 | the tile of sector i and tier r sits at index 5i + r - 1 of the output |
| Radial.JaggednessBounds | tess/ModuloKrinkleTiling/src/krinkle.js:41 | the jaggedness of non-negative sector and tier indices lies in [0, 10(\|A\|-1) + 5(\|B\|-1)] |
| Radial.SectorsCoverTurn | tess/ModuloKrinkleTiling/src/krinkle.js:31-33 | the sectors start at angle 0, each ends where the next starts, the last ends at a full turn, and none is empty |
| Radial.TiersStack | tess/ModuloKrinkleTiling/src/krinkle.js:29-38 | each tier is 50 thick and its outer radius is the next tier's inner radius |
| Primes.IsPrime | canvas/prime-slicer/prime.js:1-9 | `isPrime(num)` is true exactly when num > 1 and no d with 1 < d < num divides num |
| Primes.Scan | canvas/prime-slicer/prime.js:5-8 | from a candidate i = 6q + 5 with no divisor below i, the loop answers exactly whether num is prime |
| Primes.StepSix | canvas/prime-slicer/prime.js:5-7 | after testing i and i + 2, no divisor lies below i + 6: the loop invariant is kept |
| Primes.NoSmallDivisorMeansPrime | canvas/prime-slicer/prime.js:5-8 | once i * i > num, having no divisor below i means num is prime |
| Primes.IsPrimeSmallCases | canvas/prime-slicer/prime.js:2-4 | numbers up to 1 are not prime, 2 and 3 are, and larger multiples of 2 or 3 are not |
| Primes.FloorSqrt | canvas/prime-slicer/prime.js:16 | the start of the search is the integer square root: s * s <= num < (s + 1)^2 |
| Primes.Descend | canvas/prime-slicer/prime.js:16-20 | the downward search finds the largest divisor b <= i and returns `[num / b, b]`; it fails only when i = 0 |
| Primes.GetTwoLargestFactors | canvas/prime-slicer/prime.js:11-22 | null exactly for num <= 1 or a prime; otherwise `[a, b]` with a * b = num, 2 <= b <= a, and b the largest divisor of num not above ⌊√num⌋ |
| Primes.CompositeHasSmallDivisor | canvas/prime-slicer/prime.js:16-21 | a composite has a divisor in [2, ⌊√num⌋], so the search stops there and the trailing `return null` is unreachable |
| Slicer.SpawnNumber | canvas/prime-slicer/game.js:136-137 | a given non-zero number is kept; otherwise the random number lies in [2, 100] |
| Slicer.Miss | canvas/prime-slicer/game.js:47-50 | misses grow by one and the game is over once they reach 100; nothing else changes |
| Slicer.Complete | canvas/prime-slicer/game.js:159-174 | completing a prime costs a miss; completing a composite appends two circles whose numbers multiply to it (larger first, both at least 2) and adds it to the score; the effects are untouched |
| Slicer.FallOff | canvas/prime-slicer/game.js:40-54 | the loop removes exactly the fallen circles, keeping the others in order, adds one miss per fallen non-prime, and sets game over when a miss brings the count to 100 |
| Slicer.AgeEffects | canvas/prime-slicer/game.js:56-67 | every effect ages one frame; the survivors stay in order, and the expired ones run their completion actions from the last to the first and are removed |
| Slicer.Tick | canvas/prime-slicer/game.js:23-77 | a finished game does not change; a running frame never lowers the misses or the score |
| Slicer.Slice | canvas/prime-slicer/game.js:146-183 | every hit circle is removed at once and one 60-frame effect with its number is pushed per hit circle (highest index first); score, misses and game over are untouched |
| Slicer.StartClick | canvas/prime-slicer/game.js:194-203 | a click starts the loop exactly when the game was not started, and leaves it started |
| Slicer.CompleteAllMonotone | canvas/prime-slicer/game.js:159-172 | completion actions never lower misses or score |
| Slicer.FactorsInRange | canvas/prime-slicer/game.js:166-170 | a composite in [2, 100] splits into two factors in [2, 100] |
| Slicer.InitialInv | canvas/prime-slicer/game.js:8-13 | the starting globals satisfy the game invariant |
| Slicer.CompleteAllInv | canvas/prime-slicer/game.js:159-174 | completion actions keep the game invariant: counters non-negative, game over exactly at 100 misses, numbers in [2, 100] |
| Slicer.TickInv | canvas/prime-slicer/game.js:23-77 | a frame keeps the game invariant |
| Slicer.SliceInv | canvas/prime-slicer/game.js:146-183 | a slice keeps the game invariant |
| Slicer.StartOnce | canvas/prime-slicer/game.js:197-203 | the start button starts the game at most once |
| Slicer.EffectLifetime | canvas/prime-slicer/game.js:116-123 | a fresh effect is alive with 60 - k frames left after k < 60 frames, and the 60th frame expires it and runs its completion |
| GpuTable.RowsFor | canvas/test04/table.js:24 | `(n + 7) >> 3` is the ceiling of n / 8: the grid has enough slots and less than one spare row |
| GpuTable.TitleRow | canvas/test04/table.js:8-14 | a title row is one cell spanning 72 columns |
| GpuTable.Items | canvas/test04/table.js:50-55 | the GPU cells are eight `item` cells, each one column wide, showing the i-th reading or nothing past the end |
| GpuTable.NodeCells | canvas/test04/table.js:43-56 | a node without GPUs gets one 8-column status cell; otherwise exactly eight item cells; either way 8 columns |
| GpuTable.SlotCells | canvas/test04/table.js:31-56 | a slot inside the node range is a name cell with the index followed by the node's cells; past the range it is one empty 9-column cell; either way 9 columns |
| GpuTable.DataRow | canvas/test04/table.js:28-64 | every data row spans exactly 72 columns, matching the title cells |
| GpuTable.Section | canvas/test04/table.js:15-65 | a key's rows are its title row followed by ⌈n/8⌉ data rows, row r being grid row r; every row spans 72 columns |
| GpuTable.RedrawTable | canvas/test04/table.js:3-66 | the rebuilt table starts with the global title and every row spans 72 columns |
| GpuTable.TableRowCount | canvas/test04/table.js:7-66 | the table has one global title row, then per key one title row and ⌈n/8⌉ data rows |
| GpuTable.ColumnMajorPlacement | canvas/test04/table.js:26-39 | each node k in [0, n) appears in grid slot (k mod rows, k div rows), which shows its index |
| GpuTable.ColumnMajorUnique | canvas/test04/table.js:32 | a slot showing node k is that slot, so no node appears twice |
| GpuTable.FillerSlots | canvas/test04/table.js:33-35 | slots past the last node are single empty 9-column cells |
| GpuTable.DataRowSlots | canvas/test04/table.js:28-64 | a data row is the cells of its slots 0 to 7 concatenated left to right |
| GpuTable.NodeShown | canvas/test04/table.js:26-39 | every node k has its name cell, showing k, in data row k mod rows of its section |
| GpuTable.NodeShownOnlyAtItsSlot | canvas/test04/table.js:26-39 | a cell of data row `row` that shows node k lies in slot c with row = k mod rows and c = k div rows, so each node appears exactly once |
| LedBoard.MergeKeys | canvas/test03/board.js:12-16 | the merge keeps the default key set; a listed key the caller gave takes the caller's value, and every other key keeps its value |
| LedBoard.NewBoard | canvas/test03/board.js:2-18 | the settings have exactly the default keys; a key in both takes the caller's value, a default-only key keeps its default, caller-only keys are dropped; no message yet |
| LedBoard.Init | canvas/test03/board.js:20-26 | `init` sets the frame clock to -1 and forgets the drawn message, keeping settings and message |
| LedBoard.Anim | canvas/test03/board.js:28-58 | within 500 ms of the last frame nothing changes; otherwise the clock is set to now and the drawn message becomes the current one, remeasuring exactly when it differed |
| LedBoard.FramesSpaced | canvas/test03/board.js:31-35 | two frames that both run are at least 500 ms apart |
| LedBoard.NoRemeasureWithoutChange | canvas/test03/board.js:41-44 | after a frame has run, the next frame does not remeasure while the message is unchanged |
| LedBoard.FirstFrameAfterInit | canvas/test03/board.js:20-43 | after `init`, a frame at any time from 499 on runs, and it remeasures exactly when a message is set |
| LedBoard.PageBoard1 | canvas/test03/board.js:139-142 | `board1` takes scroll speed 0.2 and keeps the default colour and mask ratio |
| LedBoard.PageBoard2 | canvas/test03/board.js:144-149 | `board2` takes font size 12 and colour `#f0f` and keeps the default margin |
| Common.JsRem | tess/ModuloKrinkleTiling/src/krinkle.js:41 | JavaScript's `%`: the result has the dividend's sign, a magnitude below the divisor's, and equals the Euclidean remainder for non-negative operands |
| Common.JsRemCongruent | tess/ModuloKrinkleTiling/app.js:266 | the JavaScript remainder differs from the dividend by a multiple of the divisor, so with its sign and range it is the truncating remainder `(j*m) % k` uses |

## Left out

- Drawing is not modelled. This covers canvas drawing, DOM lookups, cursor styles, `console` logging and the text of the status lines. `updateTiling`'s status is reduced to which outcome it reports.
- Event registration is not modelled (`addEventListener`, `requestAnimationFrame`). Handlers are transition functions that the caller applies.
- The `setTimeout` deferral in `updateTiling` is not modelled. The generation it schedules is applied at once.
- Trigonometry and floating point are not modelled. `getVector` and `_polarToCartesian` are function parameters into exact real vectors.
  - `getVector`'s dependence on n is not tied to the n of the call.
  - Coordinates are exact reals, not IEEE doubles.
- PrototilePolygon: the closure error `Math.hypot(x, y)` is recorded as the final point itself, whose distance to the origin is the error. A square root is not modelled.
- TilingApp.UpdateTiling: `parseInt` yielding `NaN` is not modelled. The inputs are integers. The unused parameter C is not modelled either.
- Radial.Generate: requires A and B to be non-zero. With a zero divisor, JavaScript's `%` yields `NaN` and the polygons get `NaN` radii, which the model does not represent. C is unused by `generate`.
- Radial.JaggednessBounds: the bound is stated for non-negative sector and tier indices only, which are the ones `generate` uses.
- Slicer: positions, velocities, gravity and the pointer distance test are not modelled. The circles that fall below the canvas and the circles under the pointer are given as index sets. Spawn positions and velocities are also left out.
- Slicer: the file ends with a second, truncated `gameLoop` declaration (canvas/prime-slicer/game.js:205-208) that does not parse as written. It is not modelled. `Tick` is the complete first declaration, and the start button calls it once.
- Slicer.Tick: the spawn-rate comparison `Math.random() < spawnRate` is a parameter, namely whether a spawn draw is present.
- GpuTable: `for (let key in data)` enumeration order is the order of the `Data` list. Cell CSS classes are the `Kind` values. The empty filler cell has no class.
- GpuTable.RowsFor: the 32-bit `>>` is modelled as floor division by 8. The two agree for node counts below 2^31 - 7.
- Primes.FloorSqrt: `Math.floor(Math.sqrt(num))` is modelled as the exact integer square root. The floating-point result agrees for the game's numbers.
- LedBoard: `init`'s `div`, `canvas` and `scrollPosition` fields are not modelled. The text measuring and the commented-out scrolling code in `anim` are not modelled either.
- LedBoard.Anim: `anim` before `init` would read the missing `div`. The model only decides the throttle and message tracking.
- The page-level `anim()` loop that sets `board2.message` from the clock is not modelled.
- `tess/ModuloKrinkleTiling/src/main.js` is DOM wiring and is not part of this model.
- `canvas/test02` (the clock animation, the pointer logger, the `fscreen` wrapper and the Gulp build) is not part of this model.
