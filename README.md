# InvaderGame in Dafny

A model of the simulation inside the `InvaderGame` React component (a small
Space-Invaders game). It covers these parts:

- the strict rectangle overlap test `collide`;
- the 4 x 8 alien grid, built on mount and again by `startGame`;
- the key-down and key-up handlers, with the arrow flags and the 250 ms fire cooldown;
- the effect cleanup that clears the arrow flags;
- the seven stages of one animation frame (`step`), excluding drawing;
- the reset `startGame`.

Every length is in tenths of a canvas pixel:

- the field is 4800 x 6400;
- the formation moves 12 a frame, the player 50 and bullets 60;
- a bullet's radius is 40.

All arithmetic stays exact in whole numbers. Score and lives are plain counts, and time is in milliseconds.

Each operation has two forms:

- a function on the value type `State` (`Moved`, `Marched`, `Advanced`, `Shot`, `Crashed`, `Purged`, `Settled`, `Step`; `Pressed`, `Released`, `Cleared`, `Started`). The lemmas are stated about these functions.
- a method of the class `Game`, whose fields are the component's refs and state cells. Each method works step by step the way the component does: `forEach` loops over the aliens and bullets, `splice` inside nested loops, `filter`, and nested `for` loops that push grid cells. Its postcondition equates the new state with the matching function of the old state.

Modules follow the parts of the component:

- `Geometry`: boxes, bullets and `collide`;
- `Sequences`: `splice`, `filter` and the subsequence relation;
- `Formation`: the grid and the sweep;
- `Combat`: the two collision passes;
- `Invaders`: the state, the handlers, the frame stages and `Game`.

Two passes are modelled as the code behaves, not as their comments suggest:

- **Bullet-alien pass.** The `splice` calls inside the nested `forEach` are modelled exactly. `forEach` fixes the visit count when it starts. It skips indices that no longer exist, and it reads whatever element now sits at an index. As a result, a bullet keeps testing the aliens after it has hit one. Every further hit splices whichever bullet now sits at the same index, and the element that slides into a freed index is not visited. `Combat.OneBulletTwoAliens` exhibits the effect: one bullet destroys two aliens, and a second bullet that touches nothing disappears too. The proved facts are the counting facts that still hold.
- **Alien-player pass.** An alien that touches the player loses one life for the player and is moved below the field. The bottom test right after it then sets lives to 0. Any contact with the player therefore ends the game at once, whatever the lives count was.

`lastFire` starts at 0 and `startGame` does not reset it; the cooldown test is a strict `>`. The clock is the wall clock, far above 250 ms, so the first press of the first game always fires. `Invaders.FireScenario` shows the cooldown on such a clock.

## Model

| member | source | states |
|---|---|---|
| Geometry.Collide | InvaderGame.jsx:106-113 | definition of `collide`: four strict comparisons, the first argument's width and height falling back to twice its radius for a bullet's record |
| Geometry.CollideIffOverlap | InvaderGame.jsx:106-113 | for shapes of positive size, `collide` holds exactly when the two open boxes share an interior point (both directions) |
| Geometry.TouchingIsNoHit | InvaderGame.jsx:106-113 | boxes that only meet along an edge do not collide: the comparisons are strict |
| Geometry.CollideSymmetric | InvaderGame.jsx:106-113 | between two boxes that carry a width and height, the test gives the same answer with the arguments swapped |
| Geometry.Probe | InvaderGame.jsx:159 | the record a bullet is tested as starts at (x - r, y - r) and spans to (x + r, y + r) |
| Geometry.ProbeIsSquare | InvaderGame.jsx:159 | a bullet hits a box exactly when the square from (x - r, y - r) to (x + r, y + r) strictly overlaps it |
| Formation.Cell | InvaderGame.jsx:43-48 | definition: the alien pushed for row r and column c, at (40 + 40c, 60 + 30r) pixels, 30 x 20 pixels |
| Formation.Grid | InvaderGame.jsx:32-51 | definition: the 32 cells in the order the nested loops push them |
| Formation.Build | InvaderGame.jsx:41-50 | the nested row and column loops that push cells produce exactly the reference grid |
| Formation.GridLayout | InvaderGame.jsx:32-51 | the grid has 32 aliens in row-major order; alien 8r + c is at (40 + 40c, 60 + 30r) pixels, is 30 x 20 pixels, and has its left edge between 40 and 320 pixels and its right edge at most 350 pixels |
| Formation.GridInside | InvaderGame.jsx:32-51 | every alien of the fresh grid is 30 x 20 pixels and lies inside the 480 x 640 field |
| Formation.LeftMost | InvaderGame.jsx:144 | the result is at most every alien's x and equals some alien's x (`Math.min`) |
| Formation.RightMost | InvaderGame.jsx:145 | the result is at least every alien's right edge and equals some alien's right edge (`Math.max`) |
| Formation.Breaches | InvaderGame.jsx:144-146 | definition of the bounce test: a non-empty formation whose minimum x is below 0 or whose maximum right edge is past the width |
| Formation.Shifted | InvaderGame.jsx:141-143 | definition: every alien moved sideways by the same amount |
| Formation.Lowered | InvaderGame.jsx:150 | definition: every alien moved down by the same amount |
| Formation.March | InvaderGame.jsx:139-150 | definition of stage 2: move sideways by dir * 1.2 pixels; on a breach, also drop 20 pixels and negate dir |
| Formation.BreachesIff | InvaderGame.jsx:144-146 | the bounce test fires exactly when some alien sticks out past the left or the right wall; it never fires for an empty formation |
| Formation.GridBreach | InvaderGame.jsx:139-150 | the fresh grid moved d to the right crosses a wall exactly when d exceeds 130 pixels |
| Formation.MarchSpec | InvaderGame.jsx:139-150 | every alien's x changes by exactly dir * 1.2 pixels using the pre-frame dir, and sizes are kept; after a breach dir is negated and every y grows by exactly 20 pixels; otherwise dir and every y are unchanged |
| Formation.MarchKeepsOffsets | InvaderGame.jsx:139-150 | the horizontal and vertical offsets between any two aliens are preserved |
| Formation.MarchDirection | InvaderGame.jsx:146-147 | a direction of 1 or -1 stays 1 or -1 |
| Sequences.Splice | InvaderGame.jsx:160-161 | definition of `splice(i, 1)` for an index that is never negative: the element at i removed when i is in range, nothing removed past the end |
| Sequences.Filter | InvaderGame.jsx:154 | `filter`: the result is no longer than the input, and every element kept is in the input and passes the test |
| Sequences.RemoveAt | InvaderGame.jsx:160 | removing index i leaves one element fewer; elements before i are kept and elements after it shift down by one |
| Sequences.SubseqSplice | InvaderGame.jsx:161 | `splice(i, 1)` yields a subsequence, one shorter when i is in range and unchanged otherwise |
| Sequences.FilterSelects | InvaderGame.jsx:154 | `filter` keeps exactly the positions whose element passes the test, in their original order (both directions) |
| Sequences.FilterIsSubseq | InvaderGame.jsx:177 | a filtered list is a subsequence of the original |
| Combat.AlienScan | InvaderGame.jsx:158-164 | definition of the inner `forEach` for one bullet: a visit count fixed at entry, indices past the current end skipped, and on a hit the alien at the index removed, `splice(bi, 1)` applied to the bullets and one hit counted |
| Combat.BulletScan | InvaderGame.jsx:157-165 | definition of the outer `forEach`: a visit count fixed at entry, indices past the current end skipped, and the bullet now at the index handed to the inner loop |
| Combat.HitPass | InvaderGame.jsx:157-165 | definition of the whole bullet-alien pass, from zero hits |
| Combat.AlienScanConsumes | InvaderGame.jsx:158-164 | during the inner loop, each hit removes exactly one alien and at most one bullet, and the survivors of both lists keep their order |
| Combat.BulletScanConsumes | InvaderGame.jsx:157-165 | the same counting facts hold across the outer loop |
| Combat.HitPassCounts | InvaderGame.jsx:157-165 | after the whole pass, aliens removed equals hits; bullets removed is at most hits; neither list grows; survivors keep their relative order |
| Combat.HitPassIdle | InvaderGame.jsx:157-165 | with no bullets or no aliens the pass changes nothing and counts no hit |
| Combat.AlienScanMiss | InvaderGame.jsx:158-164 | a bullet whose square overlaps no alien leaves both lists and the hit count untouched in the inner loop |
| Combat.BulletScanMiss | InvaderGame.jsx:157-165 | the same across the outer loop, when no bullet overlaps any alien |
| Combat.HitPassMiss | InvaderGame.jsx:157-165 | hits come only from `collide`: when no bullet's square overlaps any alien, the pass removes nothing and counts no hit |
| Combat.OneBulletTwoAliens | InvaderGame.jsx:157-165 | one concrete pass over three distinct aliens: one bullet destroys the first and the third, the second (which slides into the freed index) is skipped and survives, and a bullet that touched nothing is removed as well |
| Combat.CrashScan | InvaderGame.jsx:168-176 | definition of the alien loop from index i: a touching alien costs a life and is moved to y = 740 pixels, then an alien whose bottom edge reaches 640 pixels sets lives to 0 |
| Combat.CrashPass | InvaderGame.jsx:168-176 | definition of the whole alien-player pass |
| Combat.CrashScanSpec | InvaderGame.jsx:168-176 | from index i on, each alien ends up moved below the field exactly when it touched the player, and earlier aliens are untouched; lives end at 0 if some remaining alien is fatal, and are unchanged otherwise |
| Combat.CrashPassSpec | InvaderGame.jsx:168-176 | over the whole pass: an alien is moved below the field exactly when it touches the player; if no alien touches the player or reaches the bottom, lives and every alien are unchanged, otherwise lives end at exactly 0 |
| Invaders.Initial | InvaderGame.jsx:18-51 | definition: the initial refs and state cells with the mounted grid |
| Invaders.Started | InvaderGame.jsx:213-240 | definition of `startGame`: score, lives, player x, bullets, dir, grid and the session flag reset |
| Invaders.Pressed | InvaderGame.jsx:67-83 | definition of the key-down handler for a key identifier and clock reading |
| Invaders.Released | InvaderGame.jsx:85-88 | definition of the key-up handler |
| Invaders.Cleared | InvaderGame.jsx:92-98 | definition of the effect cleanup: both arrow flags cleared |
| Invaders.Moved | InvaderGame.jsx:129-137 | definition of stage 1: left step if held and x > 0, then right step if held and x < 440 pixels, only while playing |
| Invaders.Marched | InvaderGame.jsx:139-150 | definition of stage 2 on the state: aliens and dir taken from `March` |
| Invaders.Raised | InvaderGame.jsx:153 | the bullet `forEach`: every bullet moved up 6 pixels, as many bullets as before |
| Invaders.InFlight | InvaderGame.jsx:154 | definition of the bullet filter's test: y greater than -10 pixels |
| Invaders.OnField | InvaderGame.jsx:177 | definition of the alien purge's test: y less than 640 pixels |
| Invaders.Advanced | InvaderGame.jsx:153-154 | definition of stage 3: bullets raised 6 pixels, then filtered on y > -10 pixels |
| Invaders.Shot | InvaderGame.jsx:157-165 | definition of stage 4: lists from `HitPass`, score raised by 10 per hit |
| Invaders.Crashed | InvaderGame.jsx:168-176 | definition of stage 5: aliens and lives from `CrashPass` |
| Invaders.Purged | InvaderGame.jsx:177 | definition of stage 6: aliens filtered on y < 640 pixels |
| Invaders.Settled | InvaderGame.jsx:201-205 | definition of stage 7: the session flag cleared unless lives and aliens remain |
| Invaders.Step | InvaderGame.jsx:115-205 | definition of one frame: the seven stages in order |
| Invaders.InitialInv | InvaderGame.jsx:18-51 | the state on mount satisfies every game invariant |
| Invaders.StartedSpec | InvaderGame.jsx:213-240 | the reset gives score 0, 3 lives, player x at 220 pixels on row y = 600 pixels, no bullets, dir 1, the full fresh grid and a running game; it keeps the shot clock and the key flags; it keeps the invariant; resetting twice is the same as resetting once |
| Invaders.HeldKeys | InvaderGame.jsx:67-97 | on key-down an arrow flag becomes true only while playing; a key-down other than the space bar changes nothing but the flags, so any other key is ignored; key-up and the cleanup clear the flags unconditionally and change nothing else |
| Invaders.FireRule | InvaderGame.jsx:72-82 | a space press appends exactly one bullet, last, at (player.x + 20, player.y) pixels with radius 4, and sets lastFire to now, exactly when playing and now - lastFire > 250; otherwise bullets and lastFire stay; nothing else changes |
| Invaders.CooldownSpacing | InvaderGame.jsx:74 | two space presses at most 250 ms apart add at most one bullet |
| Invaders.NoStuckKeys | InvaderGame.jsx:92-99 | once a game has ended and the cleanup has run, no key-down can set an arrow flag |
| Invaders.InputKeepsInv | InvaderGame.jsx:67-88 | all three handlers keep the game invariant |
| Invaders.PlayerStaysInField | InvaderGame.jsx:129-137 | the player's x stays within [0, 440] pixels and on the 5-pixel grid, moves by at most one speed, and is unchanged when not playing; nothing else changes |
| Invaders.PlayerMoves | InvaderGame.jsx:129-137 | while playing, a lone held arrow moves the player 5 pixels that way unless it is at that wall; both held cancel out except at the left wall, where the player steps right; no key held leaves the state unchanged |
| Invaders.AdvancedSpec | InvaderGame.jsx:153-154 | each bullet's y decreases by 6 pixels with x and r kept; the kept bullets are exactly those whose new y is above -10 pixels, in their original order |
| Invaders.ShotSpec | InvaderGame.jsx:157-165 | the score grows by exactly 10 per alien removed and never drops; no more bullets go than there are hits; neither list grows; survivors keep their order; nothing else changes |
| Invaders.PurgedSpec | InvaderGame.jsx:177 | the purge keeps exactly the aliens with y below 640 pixels, in their order, and changes nothing else |
| Invaders.CrashIdle | InvaderGame.jsx:168-176 | when no alien touches the player or reaches the bottom, the alien-player pass changes nothing |
| Invaders.BeforeCrashSpec | InvaderGame.jsx:128-165 | the first four stages keep the invariant, the lives and the session, never lower the score and never add aliens |
| Invaders.StepPreservesInv | InvaderGame.jsx:128-205 | a whole frame keeps every game invariant: player size, row and field bounds, unit direction, alien and bullet sizes, score >= 0, 0 <= lives <= 3 |
| Invaders.StepLives | InvaderGame.jsx:168-176 | if no alien is fatal once the bullets have hit, lives do not change in the frame; otherwise lives end at exactly 0 and the game stops; lives never go negative |
| Invaders.StepSession | InvaderGame.jsx:201-205 | the game goes on after a frame exactly when it was playing and lives and aliens remain; score never drops and aliens never come back |
| Invaders.QuietStep | InvaderGame.jsx:128-177 | a frame with no bullets, no held keys and every alien at least one drop above the player only moves the formation |
| Invaders.DriftStep | InvaderGame.jsx:139-150 | a fresh game whose grid has drifted d <= 128.8 pixels to the right moves on by 1.2 pixels in a quiet frame, without a bounce |
| Invaders.BounceStep | InvaderGame.jsx:139-150 | the quiet frame that first carries the fresh grid past the right wall drops it 20 pixels and turns it left |
| Invaders.Game.constructor | InvaderGame.jsx:18-51 | the initial refs plus the mount effect's grid give the initial state, which satisfies the invariant |
| Invaders.Game.KeyDown | InvaderGame.jsx:67-83 | the handler's effect on the fields is `Pressed` of the old state, and the invariant is kept |
| Invaders.Game.KeyUp | InvaderGame.jsx:85-88 | the handler's effect is `Released` of the old state |
| Invaders.Game.ReleaseKeys | InvaderGame.jsx:92-98 | the effect cleanup clears both arrow flags and nothing else |
| Invaders.Game.StartGame | InvaderGame.jsx:213-240 | the reset, including the rebuilt grid, leaves `Started` of the old state |
| Invaders.Game.Tick | InvaderGame.jsx:115-208 | one frame, run only while playing as the scheduling at line 208 ensures, leaves `Step` of the old state and keeps the invariant; the next frame is requested exactly when lives and aliens remain |
| Invaders.Game.MovePlayer | InvaderGame.jsx:129-137 | the movement stage computes `Moved` |
| Invaders.Game.MoveFormation | InvaderGame.jsx:139-150 | the sideways loop, the bounce test and the downward loop together compute `March` |
| Invaders.Game.ShiftFormation | InvaderGame.jsx:141-143 | the sideways `forEach` moves every alien by dir * 1.2 pixels and changes nothing else |
| Invaders.Game.LowerFormation | InvaderGame.jsx:150 | the downward `forEach` moves every alien down 20 pixels and changes nothing else |
| Invaders.Game.AdvanceBullets | InvaderGame.jsx:153-154 | the bullet loop and the filter compute `Advanced` |
| Invaders.Game.ResolveHits | InvaderGame.jsx:157-165 | the nested loops with `splice` compute the as-written pass `HitPass`, scoring 10 per hit |
| Invaders.Game.ResolveCrashes | InvaderGame.jsx:168-176 | the alien loop, applying the lives updates in order, computes `CrashPass` |
| Invaders.Game.Purge | InvaderGame.jsx:177 | the purge computes `Purged` |
| Invaders.Game.Continue | InvaderGame.jsx:201-205 | the game is stopped exactly when no lives or no aliens remain, and the result says whether to go on |
| Invaders.FireScenario | InvaderGame.jsx:72-82 | in a new game, space presses at wall-clock readings t, t + 100, t + 260, t + 400, t + 510 and t + 511 ms (t > 250) leave 1, 1, 2, 2, 2, 3 bullets: the first press fires, a gap of exactly 250 ms is refused and 251 ms is accepted |
| Invaders.FirstSweep | InvaderGame.jsx:139-150 | from a fresh start with no keys and no shots, 109 frames leave the grid shifted 130.8 pixels right, dropped 20 pixels and heading left, with score, lives, player and session untouched |

## Left out

- React's hook machinery is not modelled. State updates are treated as applied immediately and in order. This leaves out two effects:
  - the render-time `score` and `lives` that the frame closure reads, including the continuation test at InvaderGame.jsx:201, which reads the `lives` of the last render;
  - the extra frame that can be scheduled when the game-loop effect re-runs after a `score` or `lives` change.
- Frame scheduling with `requestAnimationFrame` and `cancelAnimationFrame` is host scheduling. One frame is one call of `Game.Tick`, and its result says whether the next frame would be requested.
- The key listeners are added to and removed from `window` by the host, so registration is not modelled. The handlers are methods that take the key identifier. The host calls `Game.ReleaseKeys` whenever the session flag changes, as the effect cleanup does.
- None of the presentation is modelled: it contains no game logic. This covers:
  - canvas drawing, the score and lives text and the background image loading;
  - the overlay markup with its "Game Over" text;
  - the `if (!ctx) return` guard, which depends on the host canvas.
- `Date.now()` is a clock call, so the key-down handler takes `now` as a parameter.
- IEEE-754 rounding, which would accumulate over repeated 1.2-pixel steps, is not modelled. Lengths are exact whole tenths of a pixel.
- `Geometry.Collide`: the `a.w \|\| a.r * 2` fallback is modelled by the shape's kind, not by a zero width. A box of width 0 would take the radius branch in the game; no such box is ever created.
- `Invaders.FirstSweep` follows a fresh game only up to its first bounce. Later sweeps, and their step down towards the player, are not stated.
- `src/App.jsx` only mounts the component, and `tailwind.config.js` is build configuration. Neither is part of this model.
