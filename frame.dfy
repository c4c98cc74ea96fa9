/** One call of gameLoop (script.js:418-502) and the restart handler (script.js:505-520) as
    functions on the state value; the engine's methods are proved equal to these. */
module Frames {
  import opened Geometry
  import opened Asteroids
  import opened Autoplay
  import opened GameState

  /** The fields a frame's asteroid and bullet passes never touch. */
  predicate Untouched(g: Game, r: Game)
  {
    && r.playerX == g.playerX && r.autoplay == g.autoplay
    && r.specials == g.specials && r.lastSpecial == g.lastSpecial && r.nextId == g.nextId
  }

  /** What a collision with the player leaves behind (script.js:442-453). */
  predicate Died(g: Game, r: Game)
  {
    && r.gameOver && r.deaths == g.deaths + 1 && r.bullets == []
    && r.score == g.score && r.bestScore == g.bestScore
    && Staged(r.asteroids)
  }

  /** The collision branch: one more death, every asteroid gets a fresh staggered placement,
      the bullets are cleared and the game-over flag is raised. */
  function Die(g: Game, rng: Random): (r: Game)
    ensures Died(g, r) && Untouched(g, r)
    ensures SameRoster(g.asteroids, r.asteroids) && AllOk(r.asteroids)
  {
    var all := ResetAll(g.asteroids, rng, g.draws);
    g.(deaths := g.deaths + 1, asteroids := all.value, draws := all.next, bullets := [], gameOver := true)
  }

  /** One round of the asteroid loop for asteroid i. */
  function AsteroidStep(g: Game, i: nat, speed: real, rng: Random): (r: Game)
    requires i < |g.asteroids| && AllOk(g.asteroids)
    ensures SameRoster(g.asteroids, r.asteroids) && AllOk(r.asteroids) && Untouched(g, r)
    ensures var a := Move(g.asteroids[i], speed);
      if CheckCollision(g.playerX, a.x, a.y) then Died(g, r)
      else
        && r.gameOver == g.gameOver && r.deaths == g.deaths && r.bullets == g.bullets
        && (forall j :: 0 <= j < |g.asteroids| && j != i ==> r.asteroids[j] == g.asteroids[j])
        && (a.y > BottomLine as real ==>
              r.score == g.score + 1 && r.bestScore == Max(g.bestScore, r.score)
              && r.asteroids[i].y == -(AsteroidSize as real))
        && (a.y <= BottomLine as real ==>
              r.score == g.score && r.bestScore == g.bestScore && r.asteroids[i] == a)
  {
    MoveKeepsOk(g.asteroids[i], speed);
    var a := Move(g.asteroids[i], speed);
    var moved := g.(asteroids := g.asteroids[i := a]);
    if CheckCollision(g.playerX, a.x, a.y) then Die(moved, rng)
    else if a.y > BottomLine as real then
      var renewed := ResetAsteroid(a, false, rng, g.draws);
      Scored(moved.(asteroids := moved.asteroids[i := renewed.value], draws := renewed.next), 1)
    else moved
  }

  /** The asteroid loop from index i on; it stops at the first collision. */
  function AsteroidsFrom(g: Game, speed: real, rng: Random, i: nat): (r: Game)
    requires i <= |g.asteroids| && AllOk(g.asteroids)
    ensures SameRoster(g.asteroids, r.asteroids) && AllOk(r.asteroids) && Untouched(g, r)
    ensures g.gameOver ==> r == g
    ensures g.score <= r.score <= g.score + (|g.asteroids| - i)
    ensures g.score <= g.bestScore ==> r.bestScore == Max(g.bestScore, r.score)
    ensures !g.gameOver && r.gameOver ==> r.deaths == g.deaths + 1 && r.bullets == [] && Staged(r.asteroids)
    ensures !r.gameOver ==> r.deaths == g.deaths && r.bullets == g.bullets
    decreases |g.asteroids| - i
  {
    if g.gameOver || i == |g.asteroids| then g
    else AsteroidsFrom(AsteroidStep(g, i, speed, rng), speed, rng, i + 1)
  }

  /** Asteroid a, once this frame has moved it, overlaps the player at playerX. */
  predicate Crashes(playerX: int, a: Asteroid, speed: real)
  {
    var m := Move(a, speed);
    CheckCollision(playerX, m.x, m.y)
  }

  /** The first asteroid from index j on that reaches the player once moved, or |s| when
      there is none. */
  function FirstCrashFrom(s: seq<Asteroid>, playerX: int, speed: real, j: nat): (k: nat)
    requires j <= |s|
    ensures j <= k <= |s|
    ensures forall m :: j <= m < k ==> !Crashes(playerX, s[m], speed)
    ensures k < |s| ==> Crashes(playerX, s[k], speed)
    decreases |s| - j
  {
    if j == |s| then j
    else if Crashes(playerX, s[j], speed) then j
    else FirstCrashFrom(s, playerX, speed, j + 1)
  }

  predicate Hits(b: Bullet, a: Asteroid)
  {
    CheckBulletCollision(b.x, b.y, a.x, a.y)
  }

  /** The inner asteroid loop of a bullet from index j on: the first asteroid the bullet
      overlaps, or |s| when there is none. */
  function FirstHitFrom(s: seq<Asteroid>, b: Bullet, j: nat): (k: nat)
    requires j <= |s|
    ensures j <= k <= |s|
    ensures forall m :: j <= m < k ==> !Hits(b, s[m])
    ensures k < |s| ==> Hits(b, s[k])
    decreases |s| - j
  {
    if j == |s| then j
    else if Hits(b, s[j]) then j
    else FirstHitFrom(s, b, j + 1)
  }

  function FirstHit(s: seq<Asteroid>, b: Bullet): (k: nat)
    ensures k <= |s|
    ensures forall m :: 0 <= m < k ==> !Hits(b, s[m])
    ensures k < |s| ==> Hits(b, s[k])
  {
    FirstHitFrom(s, b, 0)
  }

  /** One round of the bullet loop for bullet i: move it up; drop it once it is wholly above
      the top; otherwise the first asteroid it overlaps is recycled, the bullet is removed and
      the score rises by 5. */
  function BulletStep(g: Game, i: nat, rng: Random): (r: Game)
    requires i < |g.bullets| && AllOk(g.asteroids)
    ensures SameRoster(g.asteroids, r.asteroids) && AllOk(r.asteroids) && Untouched(g, r)
    ensures r.gameOver == g.gameOver && r.deaths == g.deaths
    ensures |r.bullets| >= i && r.bullets[..i] == g.bullets[..i]
    ensures var b := g.bullets[i].(y := g.bullets[i].y - BulletSpeed as real);
      var k := FirstHit(g.asteroids, b);
      && (b.y + BulletHeight as real < 0.0 ==>
            r.bullets == Remove(g.bullets, i) && r.asteroids == g.asteroids
            && r.score == g.score && r.bestScore == g.bestScore)
      && (b.y + BulletHeight as real >= 0.0 && k < |g.asteroids| ==>
            && r.bullets == Remove(g.bullets, i)
            && r.score == g.score + 5 && r.bestScore == Max(g.bestScore, r.score)
            && r.asteroids[k].y == -(AsteroidSize as real)
            && (forall j :: 0 <= j < |g.asteroids| && j != k ==> r.asteroids[j] == g.asteroids[j]))
      && (b.y + BulletHeight as real >= 0.0 && k == |g.asteroids| ==>
            r.bullets == g.bullets[i := b] && r.asteroids == g.asteroids
            && r.score == g.score && r.bestScore == g.bestScore)
  {
    var b := g.bullets[i].(y := g.bullets[i].y - BulletSpeed as real);
    if b.y + BulletHeight as real < 0.0 then
      g.(bullets := Remove(g.bullets, i))
    else
      var k := FirstHit(g.asteroids, b);
      if k == |g.asteroids| then g.(bullets := g.bullets[i := b])
      else
        var renewed := ResetAsteroid(g.asteroids[k], false, rng, g.draws);
        Scored(g.(asteroids := g.asteroids[k := renewed.value], bullets := Remove(g.bullets, i), draws := renewed.next), 5)
  }

  /** The reverse bullet loop over the indices n-1 down to 0. Each bullet scores at most once,
      and only a removed bullet scores. */
  function BulletsDown(g: Game, rng: Random, n: nat): (r: Game)
    requires n <= |g.bullets| && AllOk(g.asteroids)
    ensures SameRoster(g.asteroids, r.asteroids) && AllOk(r.asteroids) && Untouched(g, r)
    ensures r.gameOver == g.gameOver && r.deaths == g.deaths
    ensures |g.bullets| - n <= |r.bullets| <= |g.bullets|
    ensures g.score <= r.score && (r.score - g.score) % 5 == 0
    ensures r.score - g.score <= 5 * (|g.bullets| - |r.bullets|)
    ensures g.score <= g.bestScore ==> r.bestScore == Max(g.bestScore, r.score)
    decreases n
  {
    if n == 0 then g
    else
      var g1 := BulletStep(g, n - 1, rng);
      var r := BulletsDown(g1, rng, n - 1);
      var step := g1.score - g.score;
      assert (step == 0 && |g1.bullets| <= |g.bullets|) || (step == 5 && |g1.bullets| == |g.bullets| - 1);
      AddFiveOrNothing(r.score - g1.score, step);
      r
  }

  /** Adding 0 or 5 to a multiple of 5 gives a multiple of 5. */
  lemma AddFiveOrNothing(a: int, b: int)
    requires a % 5 == 0 && (b == 0 || b == 5)
    ensures (a + b) % 5 == 0
  {
  }

  /** One call of gameLoop with the selected asteroid speed. */
  function Frame(g: Game, speed: real, rng: Random): (r: Game)
    requires AllOk(g.asteroids) && (g.autoplay ==> speed != 0.0)
  {
    if g.gameOver then g
    else
      var g1 := AsteroidsFrom(g, speed, rng, 0);
      if g1.gameOver then g1
      else
        var g2 := BulletsDown(g1, rng, |g1.bullets|);
        if g2.autoplay then g2.(playerX := AutoplayX(g2.asteroids, g2.playerX, speed)) else g2
  }

  /** The state right before the restart handler calls gameLoop again. */
  function RestartReset(g: Game, rng: Random): (r: Game)
    ensures r.score == 0 && r.playerX == PlayerStartX && r.bullets == [] && !r.gameOver
    ensures r.deaths == g.deaths && r.bestScore == g.bestScore && r.autoplay == g.autoplay
    ensures r.specials == g.specials && r.lastSpecial == g.lastSpecial && r.nextId == g.nextId
    ensures SameRoster(g.asteroids, r.asteroids) && AllOk(r.asteroids) && Staged(r.asteroids)
  {
    var all := ResetAll(g.asteroids, rng, g.draws);
    g.(score := 0, gameOver := false, playerX := PlayerStartX, bullets := [], asteroids := all.value, draws := all.next)
  }

  /** The P key handler: only during game over, reset and run a frame. */
  function Restarted(g: Game, speed: real, rng: Random): (r: Game)
    requires g.autoplay ==> speed != 0.0
  {
    if g.gameOver then Frame(RestartReset(g, rng), speed, rng) else g
  }

  // ---------------------------------------------------------------------------
  // Lemmas

  /** Nothing happens in a frame once the game is over. */
  lemma FrameIdleWhenOver(g: Game, speed: real, rng: Random)
    requires AllOk(g.asteroids) && (g.autoplay ==> speed != 0.0) && g.gameOver
    ensures Frame(g, speed, rng) == g
  {
  }

  /** The first crash depends only on the asteroids from its starting index on. */
  lemma {:induction false} FirstCrashFromSuffix(s: seq<Asteroid>, t: seq<Asteroid>, playerX: int, speed: real, j: nat)
    requires j <= |s| == |t| && forall m :: j <= m < |s| ==> s[m] == t[m]
    ensures FirstCrashFrom(s, playerX, speed, j) == FirstCrashFrom(t, playerX, speed, j)
    decreases |s| - j
  {
    if j < |s| {
      FirstCrashFromSuffix(s, t, playerX, speed, j + 1);
    }
  }

  /** The asteroid loop from index i ends the game exactly when some asteroid from i on
      reaches the player, and then only the asteroids before that one can have scored. */
  lemma {:induction false} AsteroidsFromCrash(g: Game, speed: real, rng: Random, i: nat)
    requires i <= |g.asteroids| && AllOk(g.asteroids) && !g.gameOver
    ensures var r := AsteroidsFrom(g, speed, rng, i);
      var h := FirstCrashFrom(g.asteroids, g.playerX, speed, i);
      && (r.gameOver <==> h < |g.asteroids|)
      && (r.gameOver ==> r.score <= g.score + (h - i))
    decreases |g.asteroids| - i
  {
    if i < |g.asteroids| {
      var g1 := AsteroidStep(g, i, speed, rng);
      assert AsteroidsFrom(g, speed, rng, i) == AsteroidsFrom(g1, speed, rng, i + 1);
      if Crashes(g.playerX, g.asteroids[i], speed) {
        assert g1.gameOver && g1.score == g.score;
        assert AsteroidsFrom(g1, speed, rng, i + 1) == g1;
      } else {
        assert !g1.gameOver && g1.score <= g.score + 1;
        assert g1.playerX == g.playerX;
        FirstCrashFromSuffix(g.asteroids, g1.asteroids, g.playerX, speed, i + 1);
        AsteroidsFromCrash(g1, speed, rng, i + 1);
      }
    }
  }

  /** A frame ends the game exactly when some asteroid, once moved, reaches the player. It
      then ends with exactly one more death and no bullets, every asteroid placed again above
      the top, the player where it was (no autoplay step), and the score raised only by the
      asteroids before the one that hit, at most one point each. A frame without a hit leaves
      deaths alone. */
  lemma {:induction false} FrameDeath(g: Game, speed: real, rng: Random)
    requires AllOk(g.asteroids) && (g.autoplay ==> speed != 0.0) && !g.gameOver
    ensures var r := Frame(g, speed, rng);
      var h := FirstCrashFrom(g.asteroids, g.playerX, speed, 0);
      && (r.gameOver <==> h < |g.asteroids|)
      && (r.gameOver ==>
            && r.deaths == g.deaths + 1 && r.bullets == [] && Staged(r.asteroids)
            && r.playerX == g.playerX
            && g.score <= r.score <= g.score + h)
      && (!r.gameOver ==> r.deaths == g.deaths)
  {
    AsteroidsFromCrash(g, speed, rng, 0);
  }

  /** Over one frame the score never falls, the best score never falls and stays the running
      maximum, and deaths rise by at most one. */
  lemma {:induction false} FrameScoring(g: Game, speed: real, rng: Random)
    requires GameOk(g) && (g.autoplay ==> speed != 0.0)
    ensures var r := Frame(g, speed, rng);
      && g.score <= r.score && g.bestScore <= r.bestScore
      && r.bestScore == Max(g.bestScore, r.score)
      && g.deaths <= r.deaths <= g.deaths + 1
  {
  }

  /** A frame keeps the state invariant. */
  lemma {:induction false} FrameKeepsOk(g: Game, speed: real, rng: Random)
    requires GameOk(g) && (g.autoplay ==> speed != 0.0)
    ensures GameOk(Frame(g, speed, rng))
  {
    if !g.gameOver {
      var g1 := AsteroidsFrom(g, speed, rng, 0);
      SameRosterKeepsRoster(g.asteroids, g1.asteroids, g.specials, g.nextId);
      if !g1.gameOver {
        var g2 := BulletsDown(g1, rng, |g1.bullets|);
        SameRosterKeepsRoster(g1.asteroids, g2.asteroids, g.specials, g.nextId);
        if g2.autoplay {
          AutoplayStaysOnGrid(g2.asteroids, g2.playerX, speed);
        }
      }
    }
  }

  /** The restart handler, when the game is over, clears the score, puts the player back at
      150, drops the bullets and lowers the flag before the next frame; otherwise it does
      nothing. It keeps the invariant. */
  lemma {:induction false} RestartResets(g: Game, speed: real, rng: Random)
    requires GameOk(g) && (g.autoplay ==> speed != 0.0)
    ensures !g.gameOver ==> Restarted(g, speed, rng) == g
    ensures g.gameOver ==> Restarted(g, speed, rng) == Frame(RestartReset(g, rng), speed, rng)
    ensures GameOk(RestartReset(g, rng)) && GameOk(Restarted(g, speed, rng))
  {
    var s := RestartReset(g, rng);
    SameRosterKeepsRoster(g.asteroids, s.asteroids, g.specials, g.nextId);
    assert IsCandidate(PlayerStartX);
    if g.gameOver {
      FrameKeepsOk(s, speed, rng);
    }
  }
}
