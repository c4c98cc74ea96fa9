/** The engine's global state as one value, the invariant every handler keeps, and the small
    handlers that touch only the player, the bullet list and the game-over flag
    (movePlayer, the swipe step of handleTouchMove, createBullet, show/hideGameOver). */
module GameState {
  import opened Geometry
  import opened Asteroids

  /** MAX_SPECIAL_ASTEROIDS. */
  const MaxSpecialAsteroids: int := 2
  /** An asteroid whose top is below this line has left the arena. */
  const BottomLine: int := ArenaHeight
  /** A swipe shorter than this does not move the player. */
  const SwipeThreshold: real := 20.0

  /** The keys the movement handler distinguishes. */
  datatype Key = ArrowLeft | ArrowRight | OtherKey

  /** The global variables of the engine. `specials` holds the ids of the special asteroids,
      oldest first; `nextId` is the id the next created asteroid gets; `draws` counts the
      values taken from the random source so far. */
  datatype Game = Game(
    playerX: int,
    asteroids: seq<Asteroid>,
    bullets: seq<Bullet>,
    score: int,
    bestScore: int,
    deaths: int,
    gameOver: bool,
    autoplay: bool,
    specials: seq<nat>,
    lastSpecial: int,
    nextId: nat,
    draws: nat)

  function Max(a: int, b: int): int { if a < b then b else a }

  /** `s.splice(i, 1)`: drop the element at i, shifting the later ones down. */
  function Remove<T>(s: seq<T>, i: nat): (r: seq<T>)
    requires i < |s|
    ensures |r| == |s| - 1
    ensures forall j :: 0 <= j < i ==> r[j] == s[j]
    ensures forall j :: i <= j < |r| ==> r[j] == s[j + 1]
  {
    s[..i] + s[i + 1..]
  }

  predicate HasId(s: seq<Asteroid>, id: nat)
  {
    exists i :: 0 <= i < |s| && s[i].id == id
  }

  /** Two asteroid lists hold the same objects in the same order (positions may differ). */
  predicate SameRoster(s: seq<Asteroid>, t: seq<Asteroid>)
  {
    |s| == |t| && forall i :: 0 <= i < |s| ==> s[i].id == t[i].id && s[i].look == t[i].look
  }

  /** Object identity and the special-list bookkeeping: ids are distinct and below nextId;
      an asteroid is special exactly when its id is in the special list; the special list
      is duplicate-free, at most two long, and names only ids already issued. A listed id
      need not be live: createAsteroids empties the asteroid list without touching the
      special list. */
  predicate RosterOk(asteroids: seq<Asteroid>, specials: seq<nat>, nextId: nat)
  {
    && (forall i, j :: 0 <= i < j < |asteroids| ==> asteroids[i].id != asteroids[j].id)
    && (forall i :: 0 <= i < |asteroids| ==> asteroids[i].id < nextId)
    && (forall i :: 0 <= i < |asteroids| ==> (asteroids[i].IsSpecial() <==> asteroids[i].id in specials))
    && (forall i :: 0 <= i < |asteroids| && asteroids[i].look.Person? ==> asteroids[i].look.index < |SpecialPeople|)
    && |specials| <= MaxSpecialAsteroids
    && (forall k :: 0 <= k < |specials| ==> specials[k] < nextId)
    && (forall k, l :: 0 <= k < l < |specials| ==> specials[k] != specials[l])
  }

  /** The invariant of the engine's state. */
  predicate GameOk(g: Game)
  {
    && IsCandidate(g.playerX)
    && AllOk(g.asteroids)
    && RosterOk(g.asteroids, g.specials, g.nextId)
    && 0 <= g.score <= g.bestScore
    && 0 <= g.deaths
    && -1 <= g.lastSpecial < |SpecialPeople|
  }

  /** Every asteroid is above the top edge, at most one arena height up: the staggered
      placement of a full reset. */
  predicate Staged(s: seq<Asteroid>)
  {
    forall i :: 0 <= i < |s| ==> -(ArenaHeight as real) < s[i].y <= 0.0
  }

  /** Add points and keep bestScore the running maximum. */
  function Scored(g: Game, points: int): (r: Game)
    ensures r == g.(score := g.score + points, bestScore := r.bestScore)
    ensures r.bestScore >= g.bestScore && r.bestScore >= r.score
    ensures r.bestScore == g.bestScore || r.bestScore == r.score
  {
    var s := g.score + points;
    g.(score := s, bestScore := if s > g.bestScore then s else g.bestScore)
  }

  lemma {:induction false} SameRosterKeepsRoster(s: seq<Asteroid>, t: seq<Asteroid>, specials: seq<nat>, nextId: nat)
    requires SameRoster(s, t) && RosterOk(s, specials, nextId)
    ensures RosterOk(t, specials, nextId)
  {
  }

  // ---------------------------------------------------------------------------
  // Player movement (movePlayer, script.js:166-176; handleTouchMove, 189-207)

  /** The position after a key press. */
  function KeyMoveX(g: Game, key: Key): (r: int)
    ensures g.autoplay || g.gameOver ==> r == g.playerX
    ensures 0 <= g.playerX <= PlayerMaxX ==> 0 <= r <= PlayerMaxX
  {
    var p := g.playerX;
    if g.autoplay || g.gameOver then p
    else if key == ArrowLeft && p > 0 then (if p - PlayerSpeed < 0 then 0 else p - PlayerSpeed)
    else if key == ArrowRight && p < GameWidth - PlayerWidth then
      (if p + PlayerSpeed > GameWidth - PlayerWidth then GameWidth - PlayerWidth else p + PlayerSpeed)
    else p
  }

  /** The position after a touch move of deltaX pixels since the last recorded touch. */
  function SwipeX(g: Game, deltaX: real): (r: int)
    ensures g.autoplay || g.gameOver ==> r == g.playerX
    ensures -SwipeThreshold <= deltaX <= SwipeThreshold ==> r == g.playerX
    ensures 0 <= g.playerX <= PlayerMaxX ==> 0 <= r <= PlayerMaxX
  {
    var p := g.playerX;
    if g.gameOver || g.autoplay then p
    else if deltaX > SwipeThreshold || deltaX < -SwipeThreshold then
      if deltaX > 0.0 && p < GameWidth - PlayerWidth then
        (if p + PlayerSpeed > GameWidth - PlayerWidth then GameWidth - PlayerWidth else p + PlayerSpeed)
      else if deltaX < 0.0 && p > 0 then (if p - PlayerSpeed < 0 then 0 else p - PlayerSpeed)
      else p
    else p
  }

  /** A key press moves the player one step of 30 in the key's direction, stopping at the
      walls, keeps it on the 30-pixel grid, and does nothing under autoplay or game over. */
  lemma {:induction false} KeyMoveClamps(g: Game, key: Key)
    requires IsCandidate(g.playerX)
    ensures var r := KeyMoveX(g, key);
      && IsCandidate(r)
      && (key == ArrowLeft && !g.autoplay && !g.gameOver ==> r == Max(g.playerX - PlayerSpeed, 0))
      && (key == ArrowRight && !g.autoplay && !g.gameOver ==> r == g.playerX + PlayerSpeed || (r == PlayerMaxX && g.playerX + PlayerSpeed >= PlayerMaxX))
      && (key == OtherKey || g.autoplay || g.gameOver ==> r == g.playerX)
  {
    var p := g.playerX;
    assert (p + PlayerSpeed) % PlayerSpeed == 0 && (p - PlayerSpeed) % PlayerSpeed == 0;
  }

  /** A swipe longer than the threshold moves the player one step in its direction, stopping
      at the walls, and keeps it on the grid. */
  lemma {:induction false} SwipeClamps(g: Game, deltaX: real)
    requires IsCandidate(g.playerX)
    ensures var r := SwipeX(g, deltaX);
      && IsCandidate(r)
      && (deltaX > SwipeThreshold && !g.autoplay && !g.gameOver ==> r == g.playerX + PlayerSpeed || (r == PlayerMaxX && g.playerX + PlayerSpeed >= PlayerMaxX))
      && (deltaX < -SwipeThreshold && !g.autoplay && !g.gameOver ==> r == Max(g.playerX - PlayerSpeed, 0))
  {
    var p := g.playerX;
    assert (p + PlayerSpeed) % PlayerSpeed == 0 && (p - PlayerSpeed) % PlayerSpeed == 0;
  }

  // ---------------------------------------------------------------------------
  // Bullets (createBullet, script.js:348-359; the Space handler, 362-366)

  /** The state after createBullet: a bullet is appended at the centre of the player's top
      edge, unless the game is over. */
  function WithBullet(g: Game): (r: Game)
  {
    if g.gameOver then g
    else
      var bulletX := g.playerX as real + PlayerWidth as real / 2.0 - BulletWidth as real / 2.0;
      var bulletY := (ArenaHeight - PlayerBottomGap - PlayerHeight) as real;
      g.(bullets := g.bullets + [Bullet(bulletX, bulletY)])
  }

  /** A new bullet is centred on the player and starts at the player's top edge; nothing else
      changes; during game over nothing happens. */
  lemma NewBulletIsCentred(g: Game)
    ensures g.gameOver ==> WithBullet(g) == g
    ensures !g.gameOver ==>
      var r := WithBullet(g);
      var b := r.bullets[|r.bullets| - 1];
      && r == g.(bullets := g.bullets + [b])
      && b.x + BulletWidth as real / 2.0 == PlayerCenterX(g.playerX)
      && b.y == PlayerY as real
  {
  }

  /** The Space handler: shoot unless autoplay is on or the game is over. */
  function Shot(g: Game): (r: Game)
    ensures g.autoplay || g.gameOver ==> r == g
    ensures !g.autoplay ==> r == WithBullet(g)
  {
    if !g.autoplay && !g.gameOver then WithBullet(g) else g
  }

  lemma {:induction false} BulletKeepsOk(g: Game)
    requires GameOk(g)
    ensures GameOk(WithBullet(g)) && GameOk(Shot(g))
  {
  }
}
