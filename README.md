# 4Wall Space Invaders: the simulation engine, verified

This project models the game engine of `script.js`, a browser arcade game, and proves properties
of it. A player sprite at the bottom of a 400 x 600 arena dodges four falling asteroids and
shoots at them. The asteroids drift sideways and bounce off the side walls. An asteroid that falls
past the bottom scores 1 point and a bullet hit scores 5. Touching an asteroid ends the game until
the P key restarts it. A timer adds "special person" asteroids, at most two at a time. An
autoplay mode steers the player toward the nearest position where no asteroid is predicted to hit.

Model layout:

- `geometry.dfy` (module `Geometry`):
  - the arena constants;
  - `checkCollision` as a squared-distance test over reals;
  - `checkBulletCollision`;
  - reference definitions of the two hitboxes, with lemmas that each test fires exactly when
    the hitboxes meet.
- `asteroids.dfy` (module `Asteroids`):
  - asteroids and bullets as values;
  - one frame of asteroid motion;
  - `resetAsteroid`;
  - the wall-to-wall bounce prediction of `autoplayMove`, both as a function and as the
    source's `while` loop.
- `autoplay.dfy` (module `Autoplay`):
  - the candidate scan;
  - the `reduce` that picks the closest safe spot;
  - the single step toward it;
  - lemmas on what one autoplay call achieves.
- `game.dfy` (module `GameState`):
  - the engine's global variables as one `Game` value;
  - the state invariant `GameOk`;
  - key and swipe movement, `createBullet` and the Space handler.
- `frame.dfy` (module `Frames`): one call of `gameLoop` and the restart handler as functions on
  `Game`, with lemmas about death, scoring and the invariant.
- `spawner.dfy` (module `Spawner`): `spawnSpecialPerson` as a function on `Game`, with its
  eviction, retry loop and bookkeeping lemmas.
- `engine.dfy` (module `Engine`):
  - class `Engine`, whose fields are the global variables and whose methods run the handlers
    step by step with the source's loops;
  - each method is proved to change the state exactly as the matching function above says.

Modelling choices:

- `Math.random()` is a stream `rng: nat -> Unit` of values in [0, 1), and the field `draws`
  counts the values used so far. Draws are taken in the source's evaluation order.
- Each asteroid carries an `id` that stands for JavaScript object identity. `specialAsteroids`
  holds ids, and `asteroids.indexOf(old)` becomes a search by id.
- The asteroid speed from the speed selector is a parameter, `speed`.
- Positions are reals and no floating-point rounding is modelled. Lane positions are
  `(i + 1) * 66`, which are integers, so `Math.round` there is the identity.
- The circular test compares squared distances with 34², which equals `sqrt(d) < 34` for a
  non-negative radius sum.
- The `speedX || 1` fallback in the bounce prediction never applies, because every asteroid's
  `speedX` lies in [0.5, 1).

Behaviour of `script.js` worth noting:

- The Space key and tap handlers ignore a shot while autoplay is on, not only during game over.
- A special asteroid starts 70 pixels above the top (`y = -asteroidSize`), not at the top edge.
- A zero asteroid speed is not skipped by autoplay: the code divides by it and the prediction
  loop does not end. See the `Engine.Engine.GameLoop` line under "## Left out".
- The spawner's timer starts when the script loads (script.js:415), but `startGame` waits for
  `window.onload` (script.js:531). A spawn that runs first is lost when `createAsteroids` empties
  the asteroid list, while `specialAsteroids` still holds it. Its later eviction finds no index
  and splices nothing. The model allows this order: the invariant only requires listed specials
  to have been issued, not to be live, and `Engine.Engine.StartGame` accepts any valid state.

## Model

| member | source | states |
|---|---|---|
| Geometry.RadiusSum | script.js:251-255 | The shrunk radii are 20 and 14, so the collision distance is 34. |
| Geometry.CollisionIsStrict | script.js:255 | Centres exactly 34 apart do not collide (the comparison is strict). |
| Geometry.CollisionIsLocal | script.js:239-256 | A collision needs the centres within 34 of each other on each axis. |
| Geometry.CollisionIffHitboxesMeet | script.js:239-256 | checkCollision holds if and only if the player's 20-pixel circle and the asteroid's 14-pixel circle share an interior point. |
| Geometry.CirclesMeet | script.js:239-256 | When the centres are closer than 34 (the test fires), it returns a point within 20 of the player centre and within 14 of the asteroid centre. |
| Geometry.ThroughSharedPoint | script.js:239-256 | A point within 20 of the player centre and within 14 of the asteroid centre puts the centres closer than 34, so the test fires. |
| Geometry.BulletTouchIsNoHit | script.js:369-377 | A bullet whose edge only touches the asteroid's edge is not a hit. |
| Geometry.BulletCollisionIffBoxesMeet | script.js:369-377 | checkBulletCollision holds if and only if the open 8x20 and 70x70 rectangles share a point. |
| Asteroids.FloorTimes | script.js:152 | `Math.floor(Math.random() * n)` lies in [0, n). |
| Asteroids.Move | script.js:426-437 | A frame's move lowers the asteroid by the speed and keeps x in [0, 330]. It keeps id, picture and sideways speed. |
| Asteroids.MoveReflects | script.js:429-437 | At the left wall dir is 1 and at the right wall -1. Dir changes only at a wall. Away from the walls x moves by exactly dir * speedX. |
| Asteroids.MoveKeepsOk | script.js:426-437 | A move keeps dir in {1, -1}, speedX in [0.5, 1) and x in [0, 330]. x changes by at most speedX. |
| Asteroids.Fresh | script.js:152-155 | A new placement has x in [0, 330) and speedX in [0.5, 1). y is in (-600, 0] when initial, else -70. It uses four draws when initial, else three. |
| Asteroids.ResetAsteroid | script.js:151-162 | resetAsteroid keeps the object's identity and picture, gives a valid placement, and puts it at -70 unless initial. |
| Asteroids.ResetAll | script.js:446-448 | Resetting every asteroid keeps the list's length, order, ids and pictures. Every asteroid becomes valid with y in (-600, 0]. Four draws are used per asteroid. |
| Asteroids.ResetAllStep | script.js:446-448 | Proof step for the reset loop: each round of the reset loop extends the reset prefix by the reset of the next asteroid. |
| Asteroids.TimeToWall | script.js:295-299 | The time to the next wall is non-negative and brings the asteroid exactly onto that wall. |
| Asteroids.Bounce | script.js:290-309 | The predicted x after any time stays in [0, 330]. |
| Asteroids.BounceProgress | script.js:293-307 | Each reflection leaves no more full crossings to go, and one fewer when the asteroid starts on a wall facing in, so the prediction loop ends. |
| Asteroids.BounceAtWall | script.js:303-306 | Proof step for the prediction loop, unfolding Bounce once: when the wall is reached in time, the prediction continues from that wall in the opposite direction with the time left. |
| Asteroids.BounceBeforeWall | script.js:300-302 | Proof step for the prediction loop, unfolding Bounce once: when the wall is not reached in time, the asteroid moves in a straight line. |
| Asteroids.PredictX | script.js:290-309 | The source's wall-to-wall loop returns exactly the reflected position Bounce. |
| Autoplay.SafeAmongExact | script.js:280-328 | After n rounds, safeX holds exactly the safe multiples of 30 below 30n, strictly increasing. |
| Autoplay.SafeSpotsExact | script.js:280-328 | The scan keeps exactly the safe candidates 0, 30, ..., 300, in increasing order. |
| Autoplay.ClosestIsFirstNearest | script.js:333-335 | The reduce returns an element nearest to playerX. It is the first such element, because the comparison is strict. |
| Autoplay.StepTowardMoves | script.js:336-342 | A step moves at most 30 toward the target and never past it. It reaches the target when within 30 and stays put when already there. |
| Autoplay.AutoplayHeadsForNearestSafe | script.js:331-344 | With no safe candidate the player stays put. Otherwise the target is safe, nearest to the player and the lower one on a tie, and the player moves at most 30 toward it without overshooting. |
| Autoplay.NearestSafeWins | script.js:331-335 | The chosen target is a safe candidate. It is strictly nearer than every other safe candidate, or as near and lower. |
| Autoplay.AutoplayStaysWhenSafe | script.js:275-345 | A player standing on a safe candidate does not move. |
| Autoplay.AutoplayStaysOnGrid | script.js:275-345 | Autoplay keeps the player on a multiple of 30 in [0, 300]. |
| Autoplay.StepKeepsGrid | script.js:336-342 | A step between two candidates lands on a candidate. |
| Autoplay.ScanSafeSpots | script.js:277-328 | The nested candidate and asteroid loops build exactly SafeSpots. |
| Autoplay.ClosestSpot | script.js:333-335 | The reduce loop returns exactly Closest. |
| GameState.Remove | script.js:477 | `splice(i, 1)` shortens the list by one, keeps the elements before i and shifts the later ones down. |
| GameState.Scored | script.js:459-463 | Adding points changes only score and bestScore. bestScore never falls, is at least the new score, and is either the old best or the new score. |
| GameState.SameRosterKeepsRoster | script.js:151-162 | Repositioning asteroids without changing identity or picture keeps the special-list bookkeeping valid. |
| GameState.KeyMoveX | script.js:166-176 | A key press leaves the player alone under autoplay or game over, and keeps a position in [0, 300] inside it. |
| GameState.KeyMoveClamps | script.js:166-176 | Left moves to max(x - 30, 0). Right moves 30 or stops at 300. Other keys, autoplay and game over leave x unchanged. The result stays a multiple of 30 in [0, 300]. |
| GameState.SwipeX | script.js:189-207 | A swipe of 20 pixels or less, or one under autoplay or game over, does not move the player. A position in [0, 300] stays inside it. |
| GameState.SwipeClamps | script.js:195-202 | A swipe longer than 20 pixels moves one step in its direction, stopping at 0 or 300, and stays on the 30-pixel grid. |
| GameState.NewBulletIsCentred | script.js:348-359 | Outside game over, createBullet appends one bullet centred on the player at its top edge and changes nothing else. During game over it does nothing. |
| GameState.Shot | script.js:362-366 | The Space handler does nothing under autoplay or game over, and otherwise is createBullet. |
| GameState.BulletKeepsOk | script.js:348-366 | createBullet and the Space handler keep the state invariant. |
| Frames.Die | script.js:442-453 | A collision adds exactly one death, clears the bullets, sets gameOver, and keeps score and best. Every asteroid keeps its identity and is placed again in (-600, 0]. |
| Frames.AsteroidStep | script.js:424-465 | One round of the asteroid loop either dies as in Die or touches only asteroid i. When that asteroid passes y = 600 it is recycled at -70, the score rises by exactly 1 and best becomes max(best, score). Otherwise nothing else changes. |
| Frames.AsteroidsFrom | script.js:424-466 | The asteroid loop keeps identities and validity. It raises the score by at most one per asteroid and keeps best the running maximum. It ends in game over only with one more death, no bullets and staged asteroids. |
| Frames.FirstHitFrom | script.js:482-497 | The inner loop finds the first asteroid from j on that the bullet overlaps, or none. |
| Frames.FirstHit | script.js:482-497 | No asteroid before the returned index is hit, and the returned index, when in range, is hit. |
| Frames.BulletStep | script.js:469-498 | The bullet moves up 10. Off the top it is removed. Otherwise, on the first overlapping asteroid, that asteroid alone is recycled at -70, the bullet is removed and the score rises by exactly 5. Otherwise only the bullet moves. Bullets below index i are untouched. |
| Frames.BulletsDown | script.js:469-498 | The reverse loop keeps asteroid identities and flags. The score grows in multiples of 5, at most 5 per removed bullet. Best stays the running maximum. |
| Frames.RestartReset | script.js:506-518 | The P handler's resets give score 0, player at 150, no bullets and gameOver false. Every asteroid keeps its identity and is staged in (-600, 0]. Deaths, best and the special list are kept. |
| Frames.FrameIdleWhenOver | script.js:419 | A frame during game over changes nothing. |
| Frames.FirstCrashFrom | script.js:424-442 | It returns the first index from j on whose asteroid, once moved, collides with the player, or the list length when none does. |
| Frames.FirstCrashFromSuffix | script.js:424-442 | The first crash from j on depends only on the asteroids from j on. |
| Frames.AsteroidsFromCrash | script.js:424-466 | The asteroid loop ends the game exactly when some asteroid from i on reaches the player. The score then rises by at most the number of asteroids before that one. |
| Frames.FrameDeath | script.js:418-502 | A frame ends the game exactly when some asteroid, once moved, reaches the player. It then adds exactly one death and leaves no bullets and staged asteroids. The player does not move, and the score rises by at most one point for each asteroid before the one that hit. Otherwise deaths are unchanged. |
| Frames.FrameScoring | script.js:418-502 | Over a frame, score and best never fall, best is max(old best, new score), and deaths rise by at most one. |
| Frames.FrameKeepsOk | script.js:418-502 | A frame keeps the state invariant. |
| Frames.RestartResets | script.js:505-520 | Outside game over P does nothing. In game over it resets and runs one frame. Both keep the invariant. |
| Spawner.IndexOfId | script.js:390 | indexOf returns the first index holding the object, or -1 exactly when it is absent. |
| Spawner.Evict | script.js:386-392 | Eviction changes only the asteroid and special lists. |
| Spawner.Pick | script.js:396 | The drawn picture index lies in [0, 5). |
| Spawner.Retry | script.js:395-397 | The do-while loop returns an index different from the last one. It is the draw just before the returned cursor, and every earlier draw repeated the last index. |
| Spawner.RetryAnyBound | script.js:395-397 | The retry loop's result does not depend on which stopping draw bounds it. |
| Spawner.RetryStopsAt | script.js:395-397 | The retry loop stops at the first draw that differs from the last index. |
| Spawner.EvictRemovesOldest | script.js:386-392 | With two specials listed, the oldest id is shifted off. indexOf returns -1 exactly when its asteroid is already gone, and then the main list is left alone; otherwise that asteroid alone is spliced out. Neither list mentions it afterwards. |
| Spawner.EvictKeepsRoster | script.js:386-392 | Eviction keeps the roster invariant and leaves room for one more special. |
| Spawner.EvictedLooksMatch | script.js:386-392 | After eviction an asteroid shows a person exactly when its id is in the special list. |
| Spawner.SpawnSpec | script.js:384-413 | After a spawn the special list is at most two long. When it was full, its oldest entry is gone from both lists. The new asteroid has a fresh id, sits at -70, shows a picture different from the previous one, and is appended to both lists. The asteroids that survive eviction stay unchanged and in order in front of it. Player, bullets, score, best, deaths and flags are unchanged, and the invariant holds. |
| Spawner.AppendSpecialKeepsRoster | script.js:410-412 | Pushing a new special asteroid onto both lists keeps the roster invariant. |
| Spawner.SpawnAnyBound | script.js:394-397 | A spawn's outcome does not depend on which stopping draw is named. |
| Engine.LaneX | script.js:137-138 | Every lane position lies strictly inside the arena. |
| Engine.Created | script.js:133-147 | createAsteroids' loop makes n asteroids from three draws each. |
| Engine.CreatedLane | script.js:133-147 | Asteroid i is plain, has the i-th new id, sits in lane i + 1, is valid and is staged in (-600, 0]. |
| Engine.CreatedStep | script.js:137-146 | Proof step for the creation loop: one round appends the asteroid built from the next three draws. |
| Engine.InitialLanes | script.js:127-148 | When nothing has drawn or created an asteroid before page load, the four asteroids have ids 0-3, are plain, are valid and sit at x = 66, 132, 198 and 264. |
| Engine.CreatedFresh | script.js:127-148 | createAsteroids' asteroids are valid and plain, with consecutive new ids. |
| Engine.Started | script.js:127-148 | createAsteroids replaces the asteroid list with four valid asteroids and keeps the invariant, even when spawns ran before it. |
| Engine.Engine.constructor | script.js:56-85 | The script's variable initialisation: player at 150, no asteroids or bullets, score 0, the stored best, no specials, last index -1. The invariant holds. |
| Engine.Engine.StartGame | script.js:524-529 | From any valid state, including one that spawner ticks or key presses produced before page load, startGame creates the asteroids and runs the first frame. The result is Frame of Started and satisfies the invariant. |
| Engine.Engine.CreateAsteroids | script.js:127-148 | The loop builds exactly Created from the current draws and advances the id counter by four. |
| Engine.Engine.CreateInLane | script.js:133-147 | One round of the loop appends the lane's asteroid as Created says. |
| Engine.Engine.ResetAsteroidAt | script.js:151-162 | resetAsteroid on asteroids[j] replaces only that element, as ResetAsteroid says. |
| Engine.Engine.DrawAsteroid | script.js:403-406 | The placement draws produce exactly Fresh. |
| Engine.Engine.ResetAllAsteroids | script.js:516-518 | The loop over all asteroids produces exactly ResetAll. |
| Engine.Engine.MovePlayer | script.js:166-176 | The key handler sets playerX to KeyMoveX and changes nothing else. It keeps the invariant. |
| Engine.Engine.Swipe | script.js:195-205 | The swipe step sets playerX to SwipeX and changes nothing else. It keeps the invariant. |
| Engine.Engine.ToggleAutoplay | script.js:268-271 | The autoplay button flips the flag only and keeps the invariant. |
| Engine.Engine.CreateBullet | script.js:348-359 | createBullet yields WithBullet of the old state and keeps the invariant. |
| Engine.Engine.Shoot | script.js:362-366 | The Space handler yields Shot of the old state and keeps the invariant. |
| Engine.Engine.ShowGameOver | script.js:107-114 | showGameOver sets the flag and changes nothing else. |
| Engine.Engine.HideGameOver | script.js:115-118 | hideGameOver clears the flag and changes nothing else. |
| Engine.Engine.SpawnSpecialPerson | script.js:384-413 | The spawner yields Spawn of the old state (see SpawnSpec) and keeps the invariant. |
| Engine.Engine.AddSpecial | script.js:398-412 | Records the picture and appends the new special asteroid, drawn as Fresh, to both lists under the next id. |
| Engine.Engine.DrawPicture | script.js:396 | One draw gives Pick at the current cursor. |
| Engine.Engine.EvictOldest | script.js:386-392 | The eviction yields Evict of the old state. |
| Engine.Engine.PickPicture | script.js:394-397 | The do-while loop returns the index and cursor that Retry gives, and touches only the cursor. |
| Engine.Engine.AutoplayMove | script.js:275-345 | autoplayMove sets playerX to AutoplayX and changes nothing else. |
| Engine.Engine.GameLoop | script.js:418-502 | One frame yields exactly Frame of the old state and keeps the invariant. |
| Engine.Engine.AsteroidPass | script.js:424-466 | The asteroid loop yields AsteroidsFrom of the old state. |
| Engine.Engine.AsteroidStepAt | script.js:425-465 | One round of the asteroid loop yields AsteroidStep. |
| Engine.Engine.AddPoints | script.js:459-463 | The score update yields Scored. |
| Engine.Engine.Crash | script.js:442-453 | The collision branch yields Die. |
| Engine.Engine.MoveAt | script.js:425-437 | The movement part of a round replaces asteroid i by Move of it. |
| Engine.Engine.BulletPass | script.js:469-498 | The reverse bullet loop yields BulletsDown over all bullets. |
| Engine.Engine.BulletStepAt | script.js:470-497 | One round of the bullet loop yields BulletStep. |
| Engine.Engine.Restart | script.js:505-520 | The P handler yields Restarted and keeps the invariant. |
| Engine.Engine.ResetRound | script.js:506-518 | The resets before the new frame yield RestartReset. |

## Left out

- Audio playback, the mute button and the autoplay-unlock retries are browser media I/O.
- DOM elements, styles, the overlay HTML and the HUD text are presentation only.
- `localStorage` is not modelled. The stored best score is a constructor parameter, and the writes on a new best are not modelled.
- `setInterval`, `requestAnimationFrame` and the event-listener wiring are scheduling. Each handler and each frame is a method that a caller invokes in sequence.
- The speed selector is read through `getAsteroidSpeed()` in the source. Here the value is the `speed` parameter of the frame.
- Engine.Engine.GameLoop: requires a non-zero speed while autoplay is on. With speed 0 the source divides by zero and its bounce prediction never ends, so there is no outcome to model.
- Engine.Engine.AutoplayMove: requires a non-zero speed, for the same reason.
- Engine.Engine.SpawnSpecialPerson: takes a ghost draw `bound` at which the picture differs from the last one. It models only runs in which the retry loop ends, which happens with probability 1 for a real random source.
- Engine.Engine.Swipe: models only the step for a given `deltaX`. The `touchStartX` bookkeeping of `handleTouchStart`, `handleTouchMove` and `handleTouchEnd` is left out.
- The touch tap handlers are not modelled separately, because they perform the same guarded createBullet as the Space handler (`Shot`).
- JavaScript numbers are modelled as unbounded integers and exact reals. Floating-point rounding is not modelled.
- The DOM `el` of each object is replaced by its `id`, so identity-based `indexOf` works on ids.
- Engine.Engine.MovePlayer: promises the invariant only when it held before the call, because the handler has no precondition.
