/** Arena constants and the two collision tests of the game (script.js:56-73, 238-256, 368-377).
    Positions are reals; the circular test compares squared distances, which is the same
    as the source's `Math.sqrt(...) < r` for a non-negative radius sum. */
module Geometry {

  const GameWidth: int := 400
  const ArenaHeight: int := 600
  const PlayerBottomGap: int := 10
  const PlayerWidth: int := 100
  const PlayerHeight: int := 100
  const PlayerSpeed: int := 30
  const PlayerStartX: int := 150
  const AsteroidCount: int := 4
  const AsteroidSize: int := 70
  const BulletSpeed: int := 10
  const BulletWidth: int := 8
  const BulletHeight: int := 20

  /** Rightmost player position: gameWidth - playerWidth. */
  const PlayerMaxX: int := GameWidth - PlayerWidth
  /** Rightmost asteroid position: gameWidth - asteroidSize. */
  const AsteroidMaxX: int := GameWidth - AsteroidSize
  /** Top edge of the player sprite: 600 - 10 - playerHeight. */
  const PlayerY: int := ArenaHeight - PlayerBottomGap - PlayerHeight

  /** A player position on the 30-pixel grid the keys and the autoplay scan move on. */
  predicate IsCandidate(x: int)
  {
    0 <= x <= PlayerMaxX && x % PlayerSpeed == 0
  }

  /** The shrunk hitbox radii: 20% of the sprite sizes. */
  const PlayerRadius: real := PlayerWidth as real * 0.2
  const AsteroidRadius: real := AsteroidSize as real * 0.2

  function Sq(v: real): real { v * v }

  function PlayerCenterX(playerX: int): real { playerX as real + PlayerWidth as real / 2.0 }
  function PlayerCenterY(): real { PlayerY as real + PlayerHeight as real / 2.0 }

  /** Player vs asteroid (checkCollision): the centres are strictly closer than the sum of the
      shrunk radii. `ax`, `ay` is the asteroid's top-left corner. */
  predicate CheckCollision(playerX: int, ax: real, ay: real)
  {
    var dx := PlayerCenterX(playerX) - (ax + AsteroidSize as real / 2.0);
    var dy := PlayerCenterY() - (ay + AsteroidSize as real / 2.0);
    Sq(dx) + Sq(dy) < Sq(PlayerRadius + AsteroidRadius)
  }

  /** Bullet vs asteroid (checkBulletCollision): strict overlap of the two rectangles. */
  predicate CheckBulletCollision(bulletX: real, bulletY: real, ax: real, ay: real)
  {
    && bulletX < ax + AsteroidSize as real
    && bulletX + BulletWidth as real > ax
    && bulletY < ay + AsteroidSize as real
    && bulletY + BulletHeight as real > ay
  }

  // ---------------------------------------------------------------------------
  // Reference definitions: the points that lie strictly inside each hitbox.

  predicate InPlayerHitbox(playerX: int, qx: real, qy: real)
  {
    Sq(PlayerCenterX(playerX) - qx) + Sq(PlayerCenterY() - qy) < Sq(PlayerRadius)
  }

  predicate InAsteroidHitbox(ax: real, ay: real, qx: real, qy: real)
  {
    Sq(qx - (ax + AsteroidSize as real / 2.0)) + Sq(qy - (ay + AsteroidSize as real / 2.0)) < Sq(AsteroidRadius)
  }

  predicate InBulletBox(bulletX: real, bulletY: real, qx: real, qy: real)
  {
    bulletX < qx < bulletX + BulletWidth as real && bulletY < qy < bulletY + BulletHeight as real
  }

  predicate InAsteroidBox(ax: real, ay: real, qx: real, qy: real)
  {
    ax < qx < ax + AsteroidSize as real && ay < qy < ay + AsteroidSize as real
  }

  // ---------------------------------------------------------------------------
  // Lemmas

  /** The radius sum is 20 + 14 = 34. */
  lemma RadiusSum()
    ensures PlayerRadius == 20.0 && AsteroidRadius == 14.0
    ensures PlayerRadius + AsteroidRadius == 34.0
  {
  }

  /** Strictness: centres exactly 34 apart do not collide. */
  lemma CollisionIsStrict(playerX: int, ax: real, ay: real)
    requires Sq(PlayerCenterX(playerX) - (ax + AsteroidSize as real / 2.0)) + Sq(PlayerCenterY() - (ay + AsteroidSize as real / 2.0)) == 34.0 * 34.0
    ensures !CheckCollision(playerX, ax, ay)
  {
  }

  /** A collision needs the centres to be within 34 of each other on both axes. */
  lemma {:induction false} CollisionIsLocal(playerX: int, ax: real, ay: real)
    requires CheckCollision(playerX, ax, ay)
    ensures -34.0 < PlayerCenterX(playerX) - (ax + AsteroidSize as real / 2.0) < 34.0
    ensures -34.0 < PlayerCenterY() - (ay + AsteroidSize as real / 2.0) < 34.0
  {
    var dx := PlayerCenterX(playerX) - (ax + AsteroidSize as real / 2.0);
    var dy := PlayerCenterY() - (ay + AsteroidSize as real / 2.0);
    assert Sq(dx) + Sq(dy) < 1156.0;
    assert Sq(dx) >= 0.0 && Sq(dy) >= 0.0;
    SqBelow(dx, 34.0);
    SqBelow(dy, 34.0);
  }

  lemma SqBelow(v: real, r: real)
    requires r > 0.0 && Sq(v) < Sq(r)
    ensures -r < v < r
  {
  }

  /** The circular test says exactly that the two shrunk hitboxes share an interior point. */
  lemma {:induction false} CollisionIffHitboxesMeet(playerX: int, ax: real, ay: real)
    ensures CheckCollision(playerX, ax, ay) <==>
            exists qx, qy :: InPlayerHitbox(playerX, qx, qy) && InAsteroidHitbox(ax, ay, qx, qy)
  {
    var pcx, pcy := PlayerCenterX(playerX), PlayerCenterY();
    var acx, acy := ax + AsteroidSize as real / 2.0, ay + AsteroidSize as real / 2.0;
    if CheckCollision(playerX, ax, ay) {
      var qx, qy := CirclesMeet(pcx, pcy, acx, acy);
      assert InPlayerHitbox(playerX, qx, qy) && InAsteroidHitbox(ax, ay, qx, qy);
    }
    if exists qx, qy :: InPlayerHitbox(playerX, qx, qy) && InAsteroidHitbox(ax, ay, qx, qy) {
      var qx, qy :| InPlayerHitbox(playerX, qx, qy) && InAsteroidHitbox(ax, ay, qx, qy);
      ThroughSharedPoint(pcx, pcy, qx, qy, acx, acy);
    }
  }

  /** Two centres closer than 34 have a point within 20 of the first and within 14 of the
      second: the one dividing the segment between them in the ratio 20 : 14. */
  lemma CirclesMeet(pcx: real, pcy: real, acx: real, acy: real) returns (qx: real, qy: real)
    requires Sq(pcx - acx) + Sq(pcy - acy) < 1156.0
    ensures Sq(pcx - qx) + Sq(pcy - qy) < 400.0 && Sq(qx - acx) + Sq(qy - acy) < 196.0
  {
    var k := 10.0 / 17.0;
    qx, qy := pcx + k * (acx - pcx), pcy + k * (acy - pcy);
    assert Sq(pcx - qx) == k * k * Sq(pcx - acx);
    assert Sq(pcy - qy) == k * k * Sq(pcy - acy);
    assert Sq(qx - acx) == (7.0 / 17.0) * (7.0 / 17.0) * Sq(pcx - acx);
    assert Sq(qy - acy) == (7.0 / 17.0) * (7.0 / 17.0) * Sq(pcy - acy);
  }

  /** A point within 20 of one centre and within 14 of the other puts the centres closer
      than 34 (the triangle inequality, on squares). */
  lemma ThroughSharedPoint(pcx: real, pcy: real, qx: real, qy: real, acx: real, acy: real)
    requires Sq(pcx - qx) + Sq(pcy - qy) < 400.0 && Sq(qx - acx) + Sq(qy - acy) < 196.0
    ensures Sq(pcx - acx) + Sq(pcy - acy) < 1156.0
  {
    SumOfShortVectors(pcx - qx, pcy - qy, qx - acx, qy - acy);
    assert (pcx - qx) + (qx - acx) == pcx - acx;
    assert (pcy - qy) + (qy - acy) == pcy - acy;
  }

  /** If |u| < 20 and |v| < 14 then |u + v| < 34, stated on squares (Cauchy-Schwarz in 2D). */
  lemma SumOfShortVectors(u1: real, u2: real, v1: real, v2: real)
    requires Sq(u1) + Sq(u2) < 400.0 && Sq(v1) + Sq(v2) < 196.0
    ensures Sq(u1 + v1) + Sq(u2 + v2) < 1156.0
  {
    var uu, vv, uv := Sq(u1) + Sq(u2), Sq(v1) + Sq(v2), u1 * v1 + u2 * v2;
    assert uu >= 0.0 && vv >= 0.0;
    var cross := u1 * v2 - u2 * v1;
    assert uu * vv - uv * uv == Sq(cross);
    assert Sq(cross) >= 0.0;
    assert uv * uv <= uu * vv;
    assert uu * vv <= uu * 196.0;
    assert uu * 196.0 < 78400.0;
    assert uv < 280.0;
    assert Sq(u1 + v1) + Sq(u2 + v2) == uu + vv + 2.0 * uv;
  }

  /** Touching edges is not a hit. */
  lemma BulletTouchIsNoHit(bulletX: real, bulletY: real, ax: real, ay: real)
    requires bulletX + BulletWidth as real == ax || bulletX == ax + AsteroidSize as real
          || bulletY + BulletHeight as real == ay || bulletY == ay + AsteroidSize as real
    ensures !CheckBulletCollision(bulletX, bulletY, ax, ay)
  {
  }

  /** The rectangle test says exactly that the two open rectangles share a point. */
  lemma {:induction false} BulletCollisionIffBoxesMeet(bulletX: real, bulletY: real, ax: real, ay: real)
    ensures CheckBulletCollision(bulletX, bulletY, ax, ay) <==>
            exists qx, qy :: InBulletBox(bulletX, bulletY, qx, qy) && InAsteroidBox(ax, ay, qx, qy)
  {
    if CheckBulletCollision(bulletX, bulletY, ax, ay) {
      var lox := if bulletX < ax then ax else bulletX;
      var hix := if bulletX + 8.0 < ax + 70.0 then bulletX + 8.0 else ax + 70.0;
      var loy := if bulletY < ay then ay else bulletY;
      var hiy := if bulletY + 20.0 < ay + 70.0 then bulletY + 20.0 else ay + 70.0;
      var qx, qy := (lox + hix) / 2.0, (loy + hiy) / 2.0;
      assert InBulletBox(bulletX, bulletY, qx, qy) && InAsteroidBox(ax, ay, qx, qy);
    }
  }
}
