/** The engine as the source runs it: the global variables of script.js as the fields of one
    object, and the handlers as methods that update them step by step. Every method is
    proved to move the state exactly as the corresponding specification function says. */
module Engine {
  import opened Geometry
  import opened Asteroids
  import opened Autoplay
  import opened GameState
  import opened Frames
  import opened Spawner

  /** laneWidth = (gameWidth - asteroidSize) / (asteroidCount + 1), which is exactly 66. */
  const LaneWidth: int := (GameWidth - AsteroidSize) / (AsteroidCount + 1)

  /** Math.round((i + 1) * laneWidth): the left edge of lane i + 1 (the product is an integer). */
  function LaneX(i: nat): (x: int)
    requires i < AsteroidCount
    ensures 0 < x < AsteroidMaxX
  {
    (i + 1) * LaneWidth
  }

  /** The first n asteroids of createAsteroids, numbered from id0 and drawn from draw d;
      three draws each. */
  function Created(rng: Random, d: nat, id0: nat, n: nat): (r: Drawn<seq<Asteroid>>)
    requires n <= AsteroidCount
    ensures |r.value| == n && r.next == d + 3 * n
  {
    if n == 0 then Drawn([], d)
    else
      var front := Created(rng, d, id0, n - 1);
      var e := front.next;
      var y := rng(e) * -(ArenaHeight as real);
      var dir := if rng(e + 1) < 0.5 then 1 else -1;
      var speedX := 0.5 + rng(e + 2) * 0.5;
      Drawn(front.value + [Asteroid(id0 + n - 1, LaneX(n - 1) as real, y, dir, speedX, Plain)], e + 3)
  }

  /** Asteroid i of createAsteroids is plain, has the i-th new id, sits in lane i + 1 at a
      staggered height above the top, and moves one way or the other at a speed in [0.5, 1). */
  lemma {:induction false} CreatedLane(rng: Random, d: nat, id0: nat, n: nat, i: nat)
    requires i < n <= AsteroidCount
    ensures var a := Created(rng, d, id0, n).value[i];
      && a.id == id0 + i && a.look == Plain
      && a.x == LaneX(i) as real
      && AsteroidOk(a)
      && -(ArenaHeight as real) < a.y <= 0.0
  {
    var front := Created(rng, d, id0, n - 1);
    assert Created(rng, d, id0, n).value == front.value + [Created(rng, d, id0, n).value[n - 1]];
    if i < n - 1 {
      CreatedLane(rng, d, id0, n - 1, i);
    }
  }

  /** One more round of createAsteroids' loop appends the asteroid it builds from the next
      three draws. */
  lemma CreatedStep(rng: Random, d: nat, id0: nat, i: nat, e: nat, u: Unit, v: Unit, w: Unit)
    requires i < AsteroidCount && e == Created(rng, d, id0, i).next
    requires u == rng(e) && v == rng(e + 1) && w == rng(e + 2)
    ensures Created(rng, d, id0, i + 1) == Drawn(Created(rng, d, id0, i).value +
      [Asteroid(id0 + i, LaneX(i) as real, u * -(ArenaHeight as real),
                if v < 0.5 then 1 else -1, 0.5 + w * 0.5, Plain)], e + 3)
  {
    var front := Created(rng, d, id0, i);
    assert i + 1 - 1 == i;
  }

  /** The state once the script's variables are initialised: no asteroids yet, and the best
      score read back from local storage. */
  function Loaded(storedBest: nat): (r: Game)
  {
    Game(PlayerStartX, [], [], 0, storedBest, 0, false, false, [], -1, 0, 0)
  }

  /** createAsteroids from the start of the stream: four plain asteroids with ids 0 to 3 in
      lanes 66, 132, 198 and 264, each inside the arena. */
  lemma {:induction false} InitialLanes(rng: Random)
    ensures var made := Created(rng, 0, 0, AsteroidCount).value;
      && |made| == AsteroidCount
      && (forall i :: 0 <= i < AsteroidCount ==>
            && made[i].x == ((i + 1) * 66) as real
            && made[i].id == i && made[i].look == Plain && AsteroidOk(made[i]))
  {
    var made := Created(rng, 0, 0, AsteroidCount).value;
    forall i | 0 <= i < AsteroidCount
      ensures var a := made[i];
        && a.id == i && a.look == Plain && a.x == LaneX(i) as real && AsteroidOk(a)
    {
      CreatedLane(rng, 0, 0, AsteroidCount, i);
    }
    assert LaneX(0) == 66 && LaneX(1) == 132 && LaneX(2) == 198 && LaneX(3) == 264;
  }

  /** createAsteroids' four asteroids are valid, plain, and numbered id0, id0 + 1, ... */
  lemma {:induction false} CreatedFresh(rng: Random, d: nat, id0: nat)
    ensures var made := Created(rng, d, id0, AsteroidCount).value;
      && AllOk(made)
      && (forall i :: 0 <= i < |made| ==> made[i].look == Plain && made[i].id == id0 + i)
  {
    var made := Created(rng, d, id0, AsteroidCount).value;
    forall i | 0 <= i < |made| ensures made[i].look == Plain && made[i].id == id0 + i && AsteroidOk(made[i]) {
      CreatedLane(rng, d, id0, AsteroidCount, i);
    }
  }

  /** The state after createAsteroids: four new plain asteroids, with the next four ids and
      the next twelve draws, replace the whole asteroid list. The special list is left as it
      is, so the ids of specials spawned before the page loaded no longer name a live
      asteroid; the invariant still holds. */
  function Started(g: Game, rng: Random): (r: Game)
    ensures AllOk(r.asteroids) && |r.asteroids| == AsteroidCount
    ensures GameOk(g) ==> GameOk(r)
  {
    CreatedFresh(rng, g.draws, g.nextId);
    var made := Created(rng, g.draws, g.nextId, AsteroidCount);
    g.(asteroids := made.value, nextId := g.nextId + AsteroidCount, draws := made.next)
  }

  /** Replacing the first element after a prefix moves it into the prefix. */
  lemma SplitUpdate<T>(front: seq<T>, rest: seq<T>, x: T)
    requires |rest| > 0
    ensures (front + rest)[|front| := x] == (front + [x]) + rest[1..]
  {
  }

  class Engine {
    /** Math.random(): the n-th call returns rng(n). */
    const rng: Random

    var playerX: int
    var asteroids: seq<Asteroid>
    var bullets: seq<Bullet>
    var score: int
    var bestScore: int
    var deaths: int
    var gameOver: bool
    var autoplay: bool
    var specialAsteroids: seq<nat>
    var lastSpecialIndex: int
    var nextId: nat
    var draws: nat

    function State(): Game
      reads this
    {
      Game(playerX, asteroids, bullets, score, bestScore, deaths, gameOver, autoplay,
           specialAsteroids, lastSpecialIndex, nextId, draws)
    }

    ghost predicate Valid()
      reads this
    {
      GameOk(State())
    }

    /** Script load: the variable initialisations. `storedBest` is the value read back from
        local storage. */
    constructor (rng: Random, storedBest: nat)
      ensures this.rng == rng && State() == Loaded(storedBest) && Valid()
    {
      this.rng := rng;
      playerX := PlayerStartX;
      asteroids := [];
      bullets := [];
      score := 0;
      bestScore := storedBest;
      deaths := 0;
      gameOver := false;
      autoplay := false;
      specialAsteroids := [];
      lastSpecialIndex := -1;
      nextId := 0;
      draws := 0;
    }

    /** startGame, run once the page has loaded: create the asteroids and run the first
        frame. Spawner ticks and key presses may already have changed the state. */
    method StartGame(speed: real)
      requires Valid() && (autoplay ==> speed != 0.0)
      modifies this
      ensures Valid() && State() == Frame(Started(old(State()), rng), speed, rng)
    {
      ghost var g0 := State();
      CreateAsteroids();
      assert State() == Started(g0, rng);
      GameLoop(speed);
    }

    /** createAsteroids: four new asteroids, one per lane. */
    method CreateAsteroids()
      modifies this`asteroids, this`draws, this`nextId
      ensures var made := Created(rng, old(draws), old(nextId), AsteroidCount);
        asteroids == made.value && draws == made.next && nextId == old(nextId) + AsteroidCount
    {
      ghost var d0, id0 := draws, nextId;
      asteroids := [];
      var i := 0;
      while i < AsteroidCount
        invariant 0 <= i <= AsteroidCount && nextId == id0 + i
        invariant asteroids == Created(rng, d0, id0, i).value && draws == Created(rng, d0, id0, i).next
      {
        CreateInLane(d0, id0, i);
        i := i + 1;
      }
    }

    /** One round of createAsteroids' loop: the asteroid for lane i + 1. */
    method CreateInLane(ghost d0: nat, ghost id0: nat, i: nat)
      requires i < AsteroidCount && nextId == id0 + i
      requires asteroids == Created(rng, d0, id0, i).value && draws == Created(rng, d0, id0, i).next
      modifies this`asteroids, this`draws, this`nextId
      ensures nextId == id0 + i + 1
      ensures asteroids == Created(rng, d0, id0, i + 1).value && draws == Created(rng, d0, id0, i + 1).next
    {
      ghost var e := draws;
      var laneWidth := (GameWidth - AsteroidSize) / (AsteroidCount + 1);
      var x := (i + 1) * laneWidth;
      assert x == LaneX(i);
      var u := MathRandom();
      var y := u * -(ArenaHeight as real);
      var v := MathRandom();
      var dir := if v < 0.5 then 1 else -1;
      var w := MathRandom();
      var speedX := 0.5 + w * 0.5;
      CreatedStep(rng, d0, id0, i, e, u, v, w);
      asteroids := asteroids + [Asteroid(nextId, x as real, y, dir, speedX, Plain)];
      nextId := nextId + 1;
    }

    /** One call of Math.random(). */
    method MathRandom() returns (u: Unit)
      modifies this`draws
      ensures u == rng(old(draws)) && draws == old(draws) + 1
    {
      u := rng(draws);
      draws := draws + 1;
    }

    /** resetAsteroid(asteroids[j], initial). */
    method ResetAsteroidAt(j: nat, initial: bool)
      requires j < |asteroids|
      modifies this`asteroids, this`draws
      ensures var r := ResetAsteroid(old(asteroids[j]), initial, rng, old(draws));
        asteroids == old(asteroids)[j := r.value] && draws == r.next
      ensures State() == old(State()).(asteroids := asteroids, draws := draws)
    {
      var a := asteroids[j];
      a := DrawAsteroid(a.id, a.look, initial);
      asteroids := asteroids[j := a];
    }

    /** The draws of resetAsteroid, which spawnSpecialPerson repeats for a new asteroid:
        a column, a height when `initial` (else just above the top), a direction and a
        sideways speed. */
    method DrawAsteroid(id: nat, look: Look, initial: bool) returns (a: Asteroid)
      modifies this`draws
      ensures var made := Fresh(id, look, initial, rng, old(draws));
        a == made.value && draws == made.next
    {
      var u := MathRandom();
      var x := FloorTimes(u, GameWidth - AsteroidSize);
      var y: real;
      if initial {
        var v := MathRandom();
        y := v * -(ArenaHeight as real);
      } else {
        y := -(AsteroidSize as real);
      }
      var w := MathRandom();
      var dir := if w < 0.5 then 1 else -1;
      var z := MathRandom();
      var speedX := 0.5 + z * 0.5;
      a := Asteroid(id, x as real, y, dir, speedX, look);
    }

    /** `for (j...) resetAsteroid(asteroids[j], true)`. */
    method ResetAllAsteroids()
      modifies this`asteroids, this`draws
      ensures var r := ResetAll(old(asteroids), rng, old(draws));
        asteroids == r.value && draws == r.next
    {
      ghost var s0, d0 := asteroids, draws;
      var j := 0;
      while j < |asteroids|
        invariant 0 <= j <= |s0| && |asteroids| == |s0|
        invariant asteroids == ResetAll(s0[..j], rng, d0).value + s0[j..]
        invariant draws == ResetAll(s0[..j], rng, d0).next
      {
        ghost var front := ResetAll(s0[..j], rng, d0);
        ghost var x := ResetAsteroid(s0[j], true, rng, front.next).value;
        ResetAllStep(s0, j, rng, d0);
        SplitUpdate(front.value, s0[j..], x);
        assert asteroids[j] == s0[j];
        ResetAsteroidAt(j, true);
        j := j + 1;
      }
      assert s0[..j] == s0;
    }

    /** movePlayer: a key press moves the player one step, unless autoplay or game over. */
    method MovePlayer(key: Key)
      modifies this`playerX
      ensures old(Valid()) ==> Valid()
      ensures State() == old(State()).(playerX := KeyMoveX(old(State()), key))
    {
      if IsCandidate(playerX) {
        KeyMoveClamps(State(), key);
      }
      if autoplay || gameOver {
        return;
      }
      if key == ArrowLeft && playerX > 0 {
        playerX := playerX - PlayerSpeed;
        if playerX < 0 {
          playerX := 0;
        }
      } else if key == ArrowRight && playerX < GameWidth - PlayerWidth {
        playerX := playerX + PlayerSpeed;
        if playerX > GameWidth - PlayerWidth {
          playerX := GameWidth - PlayerWidth;
        }
      }
    }

    /** The movement part of handleTouchMove for a finger that moved deltaX pixels. */
    method Swipe(deltaX: real)
      modifies this`playerX
      ensures old(Valid()) ==> Valid()
      ensures State() == old(State()).(playerX := SwipeX(old(State()), deltaX))
    {
      if IsCandidate(playerX) {
        SwipeClamps(State(), deltaX);
      }
      if gameOver || autoplay {
        return;
      }
      if deltaX > SwipeThreshold || deltaX < -SwipeThreshold {
        if deltaX > 0.0 && playerX < GameWidth - PlayerWidth {
          playerX := playerX + PlayerSpeed;
          if playerX > GameWidth - PlayerWidth {
            playerX := GameWidth - PlayerWidth;
          }
        } else if deltaX < 0.0 && playerX > 0 {
          playerX := playerX - PlayerSpeed;
          if playerX < 0 {
            playerX := 0;
          }
        }
      }
    }

    /** The autoplay button. */
    method ToggleAutoplay()
      requires Valid()
      modifies this`autoplay
      ensures Valid()
      ensures State() == old(State()).(autoplay := !old(autoplay))
    {
      autoplay := !autoplay;
    }

    /** createBullet. */
    method CreateBullet()
      requires Valid()
      modifies this`bullets
      ensures Valid()
      ensures State() == WithBullet(old(State()))
    {
      BulletKeepsOk(State());
      if gameOver {
        return;
      }
      var bulletX := playerX as real + PlayerWidth as real / 2.0 - BulletWidth as real / 2.0;
      var bulletY := (ArenaHeight - PlayerBottomGap - PlayerHeight) as real;
      bullets := bullets + [Bullet(bulletX, bulletY)];
    }

    /** The Space key handler. */
    method Shoot()
      requires Valid()
      modifies this`bullets
      ensures Valid()
      ensures State() == Shot(old(State()))
    {
      if !autoplay && !gameOver {
        CreateBullet();
      }
    }

    method ShowGameOver()
      modifies this`gameOver
      ensures State() == old(State()).(gameOver := true)
    {
      gameOver := true;
    }

    method HideGameOver()
      modifies this`gameOver
      ensures State() == old(State()).(gameOver := false)
    {
      gameOver := false;
    }

    /** spawnSpecialPerson. The retry loop ends only if some later draw yields a picture
        other than the last one; `bound` is such a draw, and by SpawnAnyBound the outcome
        does not depend on which one is named. */
    method SpawnSpecialPerson(ghost bound: nat)
      requires Valid() && draws <= bound && Pick(rng, bound) != lastSpecialIndex
      modifies this
      ensures Valid() && State() == Spawn(old(State()), rng, bound)
    {
      ghost var g0 := State();
      ghost var e := Evict(g0);
      EvictOldest();
      assert State() == e;
      var idx := PickPicture(bound);
      ghost var picked := Retry(rng, e.draws, e.lastSpecial, bound);
      assert State() == e.(draws := picked.next) && idx == picked.value;
      AddSpecial(idx);
      SpawnSpec(g0, rng, bound);
    }

    /** The end of spawnSpecialPerson: remember the picture and add a new asteroid showing
        it just above the top, recorded as the newest special. */
    method AddSpecial(idx: nat)
      modifies this`lastSpecialIndex, this`draws, this`asteroids, this`specialAsteroids, this`nextId
      ensures var made := Fresh(old(nextId), Person(idx), false, rng, old(draws));
        State() == old(State()).(lastSpecial := idx, asteroids := old(asteroids) + [made.value],
          specials := old(specialAsteroids) + [old(nextId)], nextId := old(nextId) + 1, draws := made.next)
    {
      lastSpecialIndex := idx;
      var special := DrawAsteroid(nextId, Person(idx), false);
      asteroids := asteroids + [special];
      specialAsteroids := specialAsteroids + [nextId];
      nextId := nextId + 1;
    }

    /** `Math.floor(Math.random() * specialPeople.length)`. */
    method DrawPicture() returns (idx: int)
      modifies this`draws
      ensures idx == Pick(rng, old(draws)) && draws == old(draws) + 1
    {
      var u := MathRandom();
      idx := FloorTimes(u, |SpecialPeople|);
    }

    /** The eviction at the start of spawnSpecialPerson. */
    method EvictOldest()
      modifies this`asteroids, this`specialAsteroids
      ensures State() == Evict(old(State()))
    {
      if |specialAsteroids| >= MaxSpecialAsteroids {
        var oldest := specialAsteroids[0];
        specialAsteroids := specialAsteroids[1..];
        var idx := IndexOfId(asteroids, oldest);
        if idx != -1 {
          asteroids := asteroids[..idx] + asteroids[idx + 1..];
        }
      }
    }

    /** The do-while loop of spawnSpecialPerson: draw picture indices until one differs from
        the last one shown. `bound` is a draw known to differ. */
    method PickPicture(ghost bound: nat) returns (idx: int)
      requires draws <= bound && Pick(rng, bound) != lastSpecialIndex
      modifies this`draws
      ensures Retry(rng, old(draws), old(lastSpecialIndex), bound) == Drawn(idx, draws)
      ensures State() == old(State()).(draws := draws)
    {
      ghost var d0 := draws;
      ghost var last := lastSpecialIndex;
      idx := DrawPicture();
      while idx == lastSpecialIndex && |SpecialPeople| > 1
        invariant d0 < draws <= bound + 1 && lastSpecialIndex == last
        invariant idx == Pick(rng, draws - 1)
        invariant forall m :: d0 <= m < draws - 1 ==> Pick(rng, m) == last
        decreases bound + 1 - draws
      {
        idx := DrawPicture();
      }
      RetryStopsAt(rng, d0, last, bound, draws - 1);
    }

    /** autoplayMove: scan for safe spots and step toward the nearest. */
    method AutoplayMove(speed: real)
      requires AllOk(asteroids) && speed != 0.0
      modifies this`playerX
      ensures State() == old(State()).(playerX := AutoplayX(old(asteroids), old(playerX), speed))
    {
      var asteroidSpeed := speed;
      var safeX := ScanSafeSpots(asteroids, asteroidSpeed);
      if |safeX| > 0 {
        var closest := ClosestSpot(safeX, playerX);
        if playerX < closest {
          playerX := playerX + PlayerSpeed;
          if playerX > closest {
            playerX := closest;
          }
        } else if playerX > closest {
          playerX := playerX - PlayerSpeed;
          if playerX < closest {
            playerX := closest;
          }
        }
      }
    }

    /** gameLoop with the selected asteroid speed. */
    method GameLoop(speed: real)
      requires Valid() && (autoplay ==> speed != 0.0)
      modifies this
      ensures Valid()
      ensures State() == Frame(old(State()), speed, rng)
    {
      ghost var g0 := State();
      FrameKeepsOk(g0, speed, rng);
      if gameOver {
        return;
      }
      var asteroidSpeed := speed;
      AsteroidPass(asteroidSpeed);
      if gameOver {
        return;
      }
      BulletPass();
      if autoplay {
        AutoplayMove(asteroidSpeed);
      }
    }

    /** gameLoop's asteroid loop; it stops at the first collision with the player. */
    method AsteroidPass(speed: real)
      requires AllOk(asteroids)
      modifies this`asteroids, this`bullets, this`score, this`bestScore, this`draws, this`deaths, this`gameOver
      ensures State() == AsteroidsFrom(old(State()), speed, rng, 0)
    {
      ghost var g0 := State();
      if gameOver {
        return;
      }
      var i := 0;
      while i < |asteroids|
        invariant 0 <= i <= |asteroids| && !gameOver && AllOk(asteroids)
        invariant AsteroidsFrom(State(), speed, rng, i) == AsteroidsFrom(g0, speed, rng, 0)
      {
        AsteroidStepAt(i, speed);
        if gameOver {
          return;
        }
        i := i + 1;
      }
    }

    /** One round of gameLoop's asteroid loop, for asteroid i. */
    method AsteroidStepAt(i: nat, speed: real)
      requires i < |asteroids| && AllOk(asteroids)
      modifies this`asteroids, this`bullets, this`score, this`bestScore, this`draws, this`deaths, this`gameOver
      ensures State() == AsteroidStep(old(State()), i, speed, rng)
    {
      var a := MoveAt(i, speed);
      ghost var moved := State();
      if CheckCollision(playerX, a.x, a.y) {
        Crash();
        return;
      }
      if a.y > BottomLine as real {
        ResetAsteroidAt(i, false);
        ghost var renewed := ResetAsteroid(a, false, rng, moved.draws);
        assert State() == moved.(asteroids := moved.asteroids[i := renewed.value], draws := renewed.next);
        AddPoints(1);
      }
    }

    /** The score update shared by both loops: add the points and raise the best score to
        match when it is passed. */
    method AddPoints(points: int)
      modifies this`score, this`bestScore
      ensures State() == Scored(old(State()), points)
    {
      score := score + points;
      if score > bestScore {
        bestScore := score;
      }
    }

    /** The collision branch of the asteroid loop: count the death, reset every asteroid,
        clear the bullets and show the game-over screen. */
    method Crash()
      modifies this`asteroids, this`draws, this`deaths, this`bullets, this`gameOver
      ensures State() == Die(old(State()), rng)
    {
      deaths := deaths + 1;
      ResetAllAsteroids();
      bullets := [];
      ShowGameOver();
    }

    /** The movement part of the asteroid loop: fall by the speed, drift sideways, and
        bounce off a side wall. */
    method MoveAt(i: nat, speed: real) returns (a: Asteroid)
      requires i < |asteroids|
      modifies this`asteroids
      ensures a == Move(old(asteroids[i]), speed) && asteroids == old(asteroids)[i := a]
      ensures State() == old(State()).(asteroids := asteroids)
    {
      a := asteroids[i];
      var y := a.y + speed;
      var x := a.x + a.dir as real * a.speedX;
      var dir := a.dir;
      if x <= 0.0 {
        x := 0.0;
        dir := 1;
      } else if x >= (GameWidth - AsteroidSize) as real {
        x := (GameWidth - AsteroidSize) as real;
        dir := -1;
      }
      a := a.(x := x, y := y, dir := dir);
      asteroids := asteroids[i := a];
    }

    /** gameLoop's reverse bullet loop. */
    method BulletPass()
      requires AllOk(asteroids)
      modifies this`asteroids, this`bullets, this`score, this`bestScore, this`draws
      ensures State() == BulletsDown(old(State()), rng, old(|bullets|))
    {
      ghost var g1 := State();
      var k := |bullets| - 1;
      while k >= 0
        invariant -1 <= k < |bullets| && AllOk(asteroids)
        invariant BulletsDown(State(), rng, k + 1) == BulletsDown(g1, rng, |g1.bullets|)
      {
        BulletStepAt(k);
        k := k - 1;
      }
    }

    /** One round of gameLoop's reverse bullet loop, for bullet k. */
    method BulletStepAt(k: nat)
      requires k < |bullets| && AllOk(asteroids)
      modifies this`asteroids, this`bullets, this`score, this`bestScore, this`draws
      ensures State() == BulletStep(old(State()), k, rng)
    {
      ghost var before := State();
      var b := bullets[k];
      b := b.(y := b.y - BulletSpeed as real);
      bullets := bullets[k := b];
      assert bullets[..k] + bullets[k + 1..] == Remove(before.bullets, k);

      if b.y + BulletHeight as real < 0.0 {
        bullets := bullets[..k] + bullets[k + 1..];
        return;
      }

      var j := 0;
      while j < |asteroids|
        invariant 0 <= j <= |asteroids|
        invariant State() == before.(bullets := before.bullets[k := b])
        invariant forall m :: 0 <= m < j ==> !Hits(b, asteroids[m])
      {
        var a := asteroids[j];
        if CheckBulletCollision(b.x, b.y, a.x, a.y) {
          assert FirstHit(before.asteroids, b) == j;
          ResetAsteroidAt(j, false);
          bullets := bullets[..k] + bullets[k + 1..];
          AddPoints(5);
          return;
        }
        j := j + 1;
      }
    }

    /** The P key handler. */
    method Restart(speed: real)
      requires Valid() && (autoplay ==> speed != 0.0)
      modifies this
      ensures Valid()
      ensures State() == Restarted(old(State()), speed, rng)
    {
      ghost var g0 := State();
      RestartResets(g0, speed, rng);
      if gameOver {
        ResetRound();
        GameLoop(speed);
      }
    }

    /** The resets the P key performs before it restarts the loop. */
    method ResetRound()
      modifies this`score, this`gameOver, this`playerX, this`bullets, this`asteroids, this`draws
      ensures State() == RestartReset(old(State()), rng)
    {
      ghost var g0 := State();
      ResetAllAsteroids();
      ghost var all := ResetAll(g0.asteroids, rng, g0.draws);
      score := 0;
      HideGameOver();
      playerX := PlayerStartX;
      bullets := [];
      assert State() == g0.(score := 0, gameOver := false, playerX := PlayerStartX, bullets := [],
        asteroids := all.value, draws := all.next);
    }
  }
}
