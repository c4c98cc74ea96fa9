/** The autoplay solver (autoplayMove, script.js:275-345): scan the player positions
    0, 30, ..., 300, keep those where no asteroid is predicted to hit the player when it
    reaches the player's row, pick the one nearest to the player and take one step toward it. */
module Autoplay {
  import opened Geometry
  import opened Asteroids

  function Abs(v: int): nat { if v < 0 then -v else v }

  /** Number of positions the scan tries: x = 0, 30, ..., gameWidth - playerWidth. */
  const CandidateCount: int := PlayerMaxX / PlayerSpeed + 1

  /** Frames until the asteroid's top reaches the player's top row. */
  function TimeToPlayer(a: Asteroid, speed: real): real
    requires speed != 0.0
  {
    (PlayerY as real - a.y) / speed
  }

  /** The asteroid has not yet passed the player's row and, at its predicted position when it
      arrives there, overlaps the player's hitbox at x. */
  predicate Threat(x: int, a: Asteroid, speed: real)
    requires AsteroidOk(a) && speed != 0.0
  {
    var t := TimeToPlayer(a, speed);
    !(t < 0.0) && CheckCollision(x, Bounce(a.x, a.dir, a.speedX, t), PlayerY as real)
  }

  /** No asteroid threatens the player at x. */
  predicate IsSafe(x: int, asteroids: seq<Asteroid>, speed: real)
    requires AllOk(asteroids) && speed != 0.0
  {
    forall i :: 0 <= i < |asteroids| ==> !Threat(x, asteroids[i], speed)
  }

  /** The safe positions among the first n candidates, in increasing order (the array safeX
      after n rounds of the scan). */
  function SafeAmong(asteroids: seq<Asteroid>, speed: real, n: nat): seq<int>
    requires AllOk(asteroids) && speed != 0.0
  {
    if n == 0 then []
    else
      var x := (n - 1) * PlayerSpeed;
      SafeAmong(asteroids, speed, n - 1) + (if IsSafe(x, asteroids, speed) then [x] else [])
  }

  function SafeSpots(asteroids: seq<Asteroid>, speed: real): seq<int>
    requires AllOk(asteroids) && speed != 0.0
  {
    SafeAmong(asteroids, speed, CandidateCount)
  }

  /** `safeX.reduce((prev, curr) => |curr - p| < |prev - p| ? curr : prev)`. */
  function Closest(s: seq<int>, p: int): int
    requires |s| > 0
  {
    if |s| == 1 then s[0]
    else
      var prev := Closest(s[..|s| - 1], p);
      var curr := s[|s| - 1];
      if Abs(curr - p) < Abs(prev - p) then curr else prev
  }

  /** One step of at most playerSpeed toward the target, never past it. */
  function StepToward(p: int, target: int): int
  {
    if p < target then (if p + PlayerSpeed > target then target else p + PlayerSpeed)
    else if p > target then (if p - PlayerSpeed < target then target else p - PlayerSpeed)
    else p
  }

  /** The player's position after one call of autoplayMove. */
  function AutoplayX(asteroids: seq<Asteroid>, p: int, speed: real): int
    requires AllOk(asteroids) && speed != 0.0
  {
    var s := SafeSpots(asteroids, speed);
    if |s| == 0 then p else StepToward(p, Closest(s, p))
  }

  // ---------------------------------------------------------------------------
  // Lemmas

  /** The scan keeps exactly the safe candidates below n * 30, in strictly increasing order. */
  lemma {:induction false} SafeAmongExact(asteroids: seq<Asteroid>, speed: real, n: nat)
    requires AllOk(asteroids) && speed != 0.0
    ensures var s := SafeAmong(asteroids, speed, n);
      && (forall x :: x in s <==> 0 <= x < n * PlayerSpeed && x % PlayerSpeed == 0 && IsSafe(x, asteroids, speed))
      && (forall i, j :: 0 <= i < j < |s| ==> s[i] < s[j])
      && (forall i :: 0 <= i < |s| ==> s[i] < n * PlayerSpeed)
  {
    if n > 0 {
      SafeAmongExact(asteroids, speed, n - 1);
      var x := (n - 1) * PlayerSpeed;
      var s := SafeAmong(asteroids, speed, n);
      var s' := SafeAmong(asteroids, speed, n - 1);
      forall y ensures y in s <==> 0 <= y < n * PlayerSpeed && y % PlayerSpeed == 0 && IsSafe(y, asteroids, speed) {
        if y in s && y !in s' {
          assert y == x;
        }
        if 0 <= y < n * PlayerSpeed && y % PlayerSpeed == 0 && y != x {
          assert y < (n - 1) * PlayerSpeed;
        }
      }
    }
  }

  /** The safe spots are exactly the safe candidates, in strictly increasing order. */
  lemma SafeSpotsExact(asteroids: seq<Asteroid>, speed: real)
    requires AllOk(asteroids) && speed != 0.0
    ensures var s := SafeSpots(asteroids, speed);
      && (forall x :: x in s <==> IsCandidate(x) && IsSafe(x, asteroids, speed))
      && (forall i, j :: 0 <= i < j < |s| ==> s[i] < s[j])
  {
    SafeAmongExact(asteroids, speed, CandidateCount);
  }

  /** The reduce returns the first element of minimal distance to p. */
  lemma {:induction false} ClosestIsFirstNearest(s: seq<int>, p: int) returns (k: nat)
    requires |s| > 0
    ensures k < |s| && s[k] == Closest(s, p)
    ensures forall j :: 0 <= j < |s| ==> Abs(s[k] - p) <= Abs(s[j] - p)
    ensures forall j :: 0 <= j < k ==> Abs(s[j] - p) > Abs(s[k] - p)
  {
    if |s| == 1 {
      k := 0;
    } else {
      var front := s[..|s| - 1];
      k := ClosestIsFirstNearest(front, p);
      assert front[k] == s[k];
      if Abs(s[|s| - 1] - p) < Abs(s[k] - p) {
        k := |s| - 1;
      }
    }
  }

  /** The step moves toward the target by at most playerSpeed, never overshoots it, reaches
      it when it is close enough and does not move when already there. */
  lemma StepTowardMoves(p: int, target: int)
    ensures var r := StepToward(p, target);
      && (p <= target ==> p <= r <= target)
      && (target <= p ==> target <= r <= p)
      && Abs(r - p) <= PlayerSpeed
      && (Abs(target - p) <= PlayerSpeed ==> r == target)
      && (Abs(target - p) > PlayerSpeed ==> Abs(r - p) == PlayerSpeed)
  {
  }

  /** What one autoplay call does: with no safe candidate it stays put; otherwise it heads
      for the safe candidate nearest to p, the lower one on a tie, by one step that does not
      overshoot. */
  lemma {:induction false} AutoplayHeadsForNearestSafe(asteroids: seq<Asteroid>, p: int, speed: real)
    requires AllOk(asteroids) && speed != 0.0
    ensures (forall x :: IsCandidate(x) ==> !IsSafe(x, asteroids, speed)) ==> AutoplayX(asteroids, p, speed) == p
    ensures |SafeSpots(asteroids, speed)| > 0 ==>
      var c := Closest(SafeSpots(asteroids, speed), p);
      var r := AutoplayX(asteroids, p, speed);
      && IsCandidate(c) && IsSafe(c, asteroids, speed)
      && (forall y :: IsCandidate(y) && IsSafe(y, asteroids, speed) ==>
            Abs(c - p) < Abs(y - p) || (Abs(c - p) == Abs(y - p) && c <= y))
      && (p <= c ==> p <= r <= c) && (c <= p ==> c <= r <= p)
      && Abs(r - p) <= PlayerSpeed
      && (Abs(c - p) <= PlayerSpeed ==> r == c)
  {
    var s := SafeSpots(asteroids, speed);
    if |s| > 0 {
      NearestSafeWins(asteroids, p, speed);
      StepTowardMoves(p, Closest(s, p));
    } else {
      SafeSpotsExact(asteroids, speed);
      forall x | IsCandidate(x) ensures !IsSafe(x, asteroids, speed) {
        assert x !in s;
      }
    }
  }

  /** The target autoplay picks is a safe candidate, nearer to p than every other safe
      candidate or as near and lower. */
  lemma {:induction false} NearestSafeWins(asteroids: seq<Asteroid>, p: int, speed: real)
    requires AllOk(asteroids) && speed != 0.0 && |SafeSpots(asteroids, speed)| > 0
    ensures var c := Closest(SafeSpots(asteroids, speed), p);
      && IsCandidate(c) && IsSafe(c, asteroids, speed)
      && (forall y :: IsCandidate(y) && IsSafe(y, asteroids, speed) ==>
            Abs(c - p) < Abs(y - p) || (Abs(c - p) == Abs(y - p) && c <= y))
  {
    var s := SafeSpots(asteroids, speed);
    SafeSpotsExact(asteroids, speed);
    var k := ClosestIsFirstNearest(s, p);
    var c := s[k];
    forall y | IsCandidate(y) && IsSafe(y, asteroids, speed)
      ensures Abs(c - p) < Abs(y - p) || (Abs(c - p) == Abs(y - p) && c <= y)
    {
      assert y in s;
      var j :| 0 <= j < |s| && s[j] == y;
      if j < k {
        assert Abs(y - p) > Abs(c - p);
      } else if j > k {
        assert c < y;
      }
    }
  }

  /** A player already standing on a safe candidate does not move. */
  lemma {:induction false} AutoplayStaysWhenSafe(asteroids: seq<Asteroid>, p: int, speed: real)
    requires AllOk(asteroids) && speed != 0.0
    requires IsCandidate(p) && IsSafe(p, asteroids, speed)
    ensures AutoplayX(asteroids, p, speed) == p
  {
    var s := SafeSpots(asteroids, speed);
    SafeSpotsExact(asteroids, speed);
    assert p in s;
    var j :| 0 <= j < |s| && s[j] == p;
    var k := ClosestIsFirstNearest(s, p);
    assert Abs(s[k] - p) <= Abs(s[j] - p) == 0;
  }

  /** Autoplay keeps the player on a candidate position. */
  lemma {:induction false} AutoplayStaysOnGrid(asteroids: seq<Asteroid>, p: int, speed: real)
    requires AllOk(asteroids) && speed != 0.0
    requires IsCandidate(p)
    ensures IsCandidate(AutoplayX(asteroids, p, speed))
  {
    var s := SafeSpots(asteroids, speed);
    SafeSpotsExact(asteroids, speed);
    if |s| > 0 {
      var k := ClosestIsFirstNearest(s, p);
      assert s[k] in s;
      StepKeepsGrid(p, s[k]);
    }
  }

  /** A step from one candidate toward another lands on a candidate. */
  lemma StepKeepsGrid(p: int, target: int)
    requires IsCandidate(p) && IsCandidate(target)
    ensures IsCandidate(StepToward(p, target))
  {
    var r := StepToward(p, target);
    if r != target && r != p {
      assert r == p + PlayerSpeed || r == p - PlayerSpeed;
      assert (p + PlayerSpeed) % PlayerSpeed == 0 && (p - PlayerSpeed) % PlayerSpeed == 0;
    }
  }

  // ---------------------------------------------------------------------------
  // The scan as the source runs it

  /** The candidate loop with its inner loop over the asteroids (script.js:277-328). */
  method ScanSafeSpots(asteroids: seq<Asteroid>, asteroidSpeed: real) returns (safeX: seq<int>)
    requires AllOk(asteroids) && asteroidSpeed != 0.0
    ensures safeX == SafeSpots(asteroids, asteroidSpeed)
  {
    safeX := [];
    var x := 0;
    while x <= GameWidth - PlayerWidth
      invariant 0 <= x <= CandidateCount * PlayerSpeed && x % PlayerSpeed == 0
      invariant safeX == SafeAmong(asteroids, asteroidSpeed, x / PlayerSpeed)
    {
      var safe := true;
      var i := 0;
      while i < |asteroids|
        invariant 0 <= i <= |asteroids|
        invariant safe
        invariant forall k :: 0 <= k < i ==> !Threat(x, asteroids[k], asteroidSpeed)
      {
        var a := asteroids[i];
        var playerY := ArenaHeight - PlayerBottomGap - PlayerHeight;
        var timeToPlayer := (playerY as real - a.y) / asteroidSpeed;
        if timeToPlayer < 0.0 {
          i := i + 1;
          continue;
        }
        var futureAx := PredictX(a, timeToPlayer);
        if CheckCollision(x, futureAx, playerY as real) {
          safe := false;
          break;
        }
        i := i + 1;
      }
      assert safe <==> IsSafe(x, asteroids, asteroidSpeed);
      if safe {
        safeX := safeX + [x];
      }
      x := x + PlayerSpeed;
    }
  }

  /** The reduce (script.js:333-335). */
  method ClosestSpot(safeX: seq<int>, playerX: int) returns (closest: int)
    requires |safeX| > 0
    ensures closest == Closest(safeX, playerX)
  {
    closest := safeX[0];
    var i := 1;
    while i < |safeX|
      invariant 1 <= i <= |safeX|
      invariant closest == Closest(safeX[..i], playerX)
    {
      var curr := safeX[i];
      assert safeX[..i + 1][..i] == safeX[..i];
      if Abs(curr - playerX) < Abs(closest - playerX) {
        closest := curr;
      }
      i := i + 1;
    }
    assert safeX[..i] == safeX;
  }
}
