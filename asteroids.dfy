/** Asteroids and bullets as values: their per-frame motion, their random respawn and the
    bounce prediction the autoplay solver uses (script.js:126-162, 289-309, 423-439).
    An asteroid's `id` stands for the identity of the JavaScript object, which the special
    spawner relies on when it looks an evicted asteroid up in the main list. */
module Asteroids {
  import opened Geometry

  /** A value returned by Math.random(): a real in [0, 1). */
  type Unit = r: real | 0.0 <= r < 1.0

  /** The random source: the n-th value Math.random() returns. */
  type Random = nat -> Unit

  /** A value computed from the random source, with the index of the next unused draw. */
  datatype Drawn<T> = Drawn(value: T, next: nat)

  /** The images of the special asteroids. */
  const SpecialPeople: seq<string> := ["amber.png", "scott.png", "mick.png", "ricci.png", "tiy.png"]

  /** The picture an asteroid shows: the default one, or one of the special people. */
  datatype Look = Plain | Person(index: nat)

  datatype Asteroid = Asteroid(id: nat, x: real, y: real, dir: int, speedX: real, look: Look)
  {
    predicate IsSpecial() { look.Person? }
  }

  datatype Bullet = Bullet(x: real, y: real)

  /** What every live asteroid satisfies once it has been created or stepped. */
  predicate AsteroidOk(a: Asteroid)
  {
    && (a.dir == 1 || a.dir == -1)
    && 0.5 <= a.speedX < 1.0
    && 0.0 <= a.x <= AsteroidMaxX as real
  }

  predicate AllOk(s: seq<Asteroid>)
  {
    forall i :: 0 <= i < |s| ==> AsteroidOk(s[i])
  }

  lemma ProductPositive(a: real, b: real)
    requires a > 0.0 && b > 0.0
    ensures a * b > 0.0
  {
  }

  /** Math.floor(Math.random() * n) for a positive n. */
  function FloorTimes(u: Unit, n: int): (r: int)
    requires n > 0
    ensures 0 <= r < n
  {
    var p := u * n as real;
    ProductPositive(1.0 - u, n as real);
    assert p < n as real;
    p.Floor
  }

  // ---------------------------------------------------------------------------
  // One frame of motion (script.js:426-437)

  /** Move down by `speed`, sideways by dir * speedX, and reflect off the walls. */
  function Move(a: Asteroid, speed: real): (r: Asteroid)
    ensures r.id == a.id && r.look == a.look && r.speedX == a.speedX
    ensures r.y == a.y + speed
    ensures 0.0 <= r.x <= AsteroidMaxX as real
    ensures r.dir == 1 || r.dir == -1 || r.dir == a.dir
  {
    var y := a.y + speed;
    var x := a.x + a.dir as real * a.speedX;
    if x <= 0.0 then a.(x := 0.0, y := y, dir := 1)
    else if x >= AsteroidMaxX as real then a.(x := AsteroidMaxX as real, y := y, dir := -1)
    else a.(x := x, y := y)
  }

  /** The wall rule: the direction points right at the left wall and left at the right wall,
      and it only changes at a wall; away from the walls the asteroid moves by dir * speedX. */
  lemma MoveReflects(a: Asteroid, speed: real)
    ensures var r := Move(a, speed);
      && (r.x == 0.0 ==> r.dir == 1)
      && (r.x == AsteroidMaxX as real ==> r.dir == -1)
      && (r.dir != a.dir ==> r.x == 0.0 || r.x == AsteroidMaxX as real)
      && (0.0 < r.x < AsteroidMaxX as real ==> r.x == a.x + a.dir as real * a.speedX && r.dir == a.dir)
  {
  }

  /** A step keeps an asteroid valid and moves it sideways by at most speedX. */
  lemma {:induction false} MoveKeepsOk(a: Asteroid, speed: real)
    requires AsteroidOk(a)
    ensures AsteroidOk(Move(a, speed))
    ensures -a.speedX <= Move(a, speed).x - a.x <= a.speedX
  {
    var x := a.x + a.dir as real * a.speedX;
    assert a.dir as real * a.speedX == a.speedX || a.dir as real * a.speedX == -a.speedX;
  }

  // ---------------------------------------------------------------------------
  // Respawn (resetAsteroid, script.js:151-162; the same draws in spawnSpecialPerson, 403-406)

  /** A freshly placed asteroid: x = floor(rand * 330); y = rand * -600 for the staggered
      initial placement, else -70 (just above the top); a fair coin for the direction;
      speedX = 0.5 + rand * 0.5. Draws are consumed in the source's order. */
  function Fresh(id: nat, look: Look, initial: bool, rng: Random, d: nat): (r: Drawn<Asteroid>)
    ensures AsteroidOk(r.value) && r.value.x < AsteroidMaxX as real
    ensures r.value.id == id && r.value.look == look
    ensures initial ==> -(ArenaHeight as real) < r.value.y <= 0.0
    ensures !initial ==> r.value.y == -(AsteroidSize as real)
    ensures r.next == d + (if initial then 4 else 3)
  {
    var x := FloorTimes(rng(d), AsteroidMaxX) as real;
    var d1 := if initial then d + 2 else d + 1;
    var y := if initial then rng(d + 1) * -(ArenaHeight as real) else -(AsteroidSize as real);
    var dir := if rng(d1) < 0.5 then 1 else -1;
    var speedX := 0.5 + rng(d1 + 1) * 0.5;
    Drawn(Asteroid(id, x, y, dir, speedX, look), d1 + 2)
  }

  /** resetAsteroid: new position, direction and speed; identity and picture are kept. */
  function ResetAsteroid(a: Asteroid, initial: bool, rng: Random, d: nat): (r: Drawn<Asteroid>)
    ensures AsteroidOk(r.value) && r.value.id == a.id && r.value.look == a.look
    ensures !initial ==> r.value.y == -(AsteroidSize as real)
    ensures r.next == d + (if initial then 4 else 3)
  {
    Fresh(a.id, a.look, initial, rng, d)
  }

  /** The loop `for (j...) resetAsteroid(asteroids[j], true)`: every asteroid gets a fresh,
      staggered initial placement, in index order. */
  function ResetAll(s: seq<Asteroid>, rng: Random, d: nat): (r: Drawn<seq<Asteroid>>)
    ensures |r.value| == |s| && r.next == d + 4 * |s|
    ensures AllOk(r.value)
    ensures forall i :: 0 <= i < |s| ==>
      && r.value[i].id == s[i].id && r.value[i].look == s[i].look
      && -(ArenaHeight as real) < r.value[i].y <= 0.0
    decreases |s|
  {
    if |s| == 0 then Drawn([], d)
    else
      var front := ResetAll(s[..|s| - 1], rng, d);
      var last := ResetAsteroid(s[|s| - 1], true, rng, front.next);
      var r := Drawn(front.value + [last.value], last.next);
      assert forall i :: 0 <= i < |s| - 1 ==> r.value[i] == front.value[i];
      r
  }
  /** Resetting one more asteroid extends the reset prefix by that asteroid's reset. */
  lemma {:induction false} ResetAllStep(s: seq<Asteroid>, j: nat, rng: Random, d: nat)
    requires j < |s|
    ensures var front := ResetAll(s[..j], rng, d);
      var last := ResetAsteroid(s[j], true, rng, front.next);
      ResetAll(s[..j + 1], rng, d) == Drawn(front.value + [last.value], last.next)
  {
    assert s[..j + 1][..j] == s[..j];
  }


  // ---------------------------------------------------------------------------
  // Bounce prediction (the inner while loop of autoplayMove, script.js:290-309)

  /** True when the asteroid sits on a wall and moves away from it. */
  predicate AtWallFacingIn(x: real, dir: int)
  {
    (x == 0.0 && dir == 1) || (x == AsteroidMaxX as real && dir == -1)
  }

  /** Time until the asteroid reaches the wall it moves toward. */
  function TimeToWall(x: real, dir: int, speedX: real): (w: real)
    requires 0.0 <= x <= AsteroidMaxX as real && speedX > 0.0
    ensures w >= 0.0
    ensures dir == 1 ==> x + speedX * w == AsteroidMaxX as real
    ensures dir != 1 ==> x - speedX * w == 0.0
  {
    if dir == 1 then (AsteroidMaxX as real - x) / speedX else x / speedX
  }

  /** How many full wall-to-wall crossings fit into time t (the termination measure). */
  function Crossings(speedX: real, t: real): nat
    requires speedX > 0.0
  {
    if t <= 0.0 then 0 else
      var c := t * speedX / AsteroidMaxX as real;
      assert c > 0.0;
      c.Floor
  }

  /** How far an asteroid moving in direction dir at speed speedX travels in time t. */
  function Displacement(dir: int, speedX: real, t: real): real
  {
    dir as real * speedX * t
  }

  /** The wall an asteroid moving in direction dir runs into. */
  function WallAhead(dir: int): real
  {
    if dir == 1 then AsteroidMaxX as real else 0.0
  }

  /** Where an asteroid at x moving in direction dir at speed speedX will be after time t,
      reflecting exactly at each wall. */
  function Bounce(x: real, dir: int, speedX: real, t: real): (r: real)
    requires 0.0 <= x <= AsteroidMaxX as real && (dir == 1 || dir == -1) && speedX > 0.0
    ensures 0.0 <= r <= AsteroidMaxX as real
    decreases Crossings(speedX, t), if AtWallFacingIn(x, dir) then 0 else 1
  {
    if t <= 0.0 then x
    else
      var w := TimeToWall(x, dir, speedX);
      if w > t then
        BeforeWall(x, dir, speedX, t, w);
        x + Displacement(dir, speedX, t)
      else
        BounceProgress(x, dir, speedX, t, w);
        Bounce(WallAhead(dir), -dir, speedX, t - w)
  }

  /** Moving for less than the time to the wall stays inside the arena. */
  lemma BeforeWall(x: real, dir: int, speedX: real, t: real, w: real)
    requires 0.0 <= x <= AsteroidMaxX as real && (dir == 1 || dir == -1) && speedX > 0.0
    requires w == TimeToWall(x, dir, speedX) && 0.0 < t < w
    ensures 0.0 <= x + Displacement(dir, speedX, t) <= AsteroidMaxX as real
  {
    assert speedX * t < speedX * w;
  }

  /** Moving for exactly the time to the wall ends on that wall. */
  lemma ReachesWall(x: real, dir: int, speedX: real, w: real)
    requires 0.0 <= x <= AsteroidMaxX as real && (dir == 1 || dir == -1) && speedX > 0.0
    requires w == TimeToWall(x, dir, speedX)
    ensures x + Displacement(dir, speedX, w) == WallAhead(dir)
  {
  }

  /** After a reflection there are no more crossings left than before, and one fewer when
      the asteroid started on a wall facing in. */
  lemma BounceProgress(x: real, dir: int, speedX: real, t: real, w: real)
    requires 0.0 <= x <= AsteroidMaxX as real && (dir == 1 || dir == -1) && speedX > 0.0
    requires w == TimeToWall(x, dir, speedX) && 0.0 < t && w <= t
    ensures Crossings(speedX, t - w) <= Crossings(speedX, t)
    ensures AtWallFacingIn(x, dir) ==> Crossings(speedX, t - w) < Crossings(speedX, t)
  {
    var c := t * speedX / AsteroidMaxX as real;
    var c' := (t - w) * speedX / AsteroidMaxX as real;
    assert c' == c - w * speedX / AsteroidMaxX as real;
    assert w * speedX >= 0.0;
    if AtWallFacingIn(x, dir) {
      assert w * speedX == AsteroidMaxX as real;
      assert c' == c - 1.0;
    }
  }

  /** One reflection: when the wall is reached within time t, the prediction continues from
      that wall in the opposite direction with the time that is left. */
  lemma BounceAtWall(x: real, dir: int, speedX: real, t: real, w: real, x': real, dir': int, t': real)
    requires 0.0 <= x <= AsteroidMaxX as real && (dir == 1 || dir == -1) && speedX > 0.0
    requires w == TimeToWall(x, dir, speedX) && 0.0 < t && w <= t
    requires x' == WallAhead(dir) && dir' == -dir && t' == t - w
    ensures Bounce(x, dir, speedX, t) == Bounce(x', dir', speedX, t')
  {
  }

  /** No reflection: when the wall is not reached within time t, the asteroid moves in a
      straight line. */
  lemma BounceBeforeWall(x: real, dir: int, speedX: real, t: real)
    requires 0.0 <= x <= AsteroidMaxX as real && (dir == 1 || dir == -1) && speedX > 0.0
    requires 0.0 < t < TimeToWall(x, dir, speedX)
    ensures Bounce(x, dir, speedX, t) == x + Displacement(dir, speedX, t)
  {
  }

  /** The source's prediction loop: walk wall to wall until the time is used up. */
  method PredictX(a: Asteroid, timeToPlayer: real) returns (futureX: real)
    requires AsteroidOk(a)
    ensures futureX == Bounce(a.x, a.dir, a.speedX, timeToPlayer)
  {
    var tempDir := a.dir;
    var tempX := a.x;
    var remainingTime := timeToPlayer;
    while remainingTime > 0.0
      invariant 0.0 <= tempX <= AsteroidMaxX as real && (tempDir == 1 || tempDir == -1)
      invariant Bounce(tempX, tempDir, a.speedX, remainingTime) == Bounce(a.x, a.dir, a.speedX, timeToPlayer)
      decreases Crossings(a.speedX, remainingTime), if AtWallFacingIn(tempX, tempDir) then 0 else 1
    {
      var nextWall := TimeToWall(tempX, tempDir, a.speedX);
      if nextWall > remainingTime {
        BounceBeforeWall(tempX, tempDir, a.speedX, remainingTime);
        tempX := tempX + Displacement(tempDir, a.speedX, remainingTime);
        break;
      } else {
        BounceProgress(tempX, tempDir, a.speedX, remainingTime, nextWall);
        ReachesWall(tempX, tempDir, a.speedX, nextWall);
        ghost var x0, dir0, time0 := tempX, tempDir, remainingTime;
        tempX := tempX + Displacement(tempDir, a.speedX, nextWall);
        tempDir := tempDir * -1;
        remainingTime := remainingTime - nextWall;
        BounceAtWall(x0, dir0, a.speedX, time0, nextWall, tempX, tempDir, remainingTime);
      }
    }
    futureX := tempX;
  }
}
