/** The special-person spawner (spawnSpecialPerson, script.js:380-413): evict the oldest
    special asteroid when two are live, pick a picture different from the last one, and
    append a new special asteroid to both lists. */
module Spawner {
  import opened Geometry
  import opened Asteroids
  import opened GameState

  /** `asteroids.indexOf(obj)` for the object with this id: the first index holding it,
      or -1. */
  function IndexOfId(s: seq<Asteroid>, id: nat): (k: int)
    ensures -1 <= k < |s|
    ensures k >= 0 ==> s[k].id == id && forall j :: 0 <= j < k ==> s[j].id != id
    ensures k == -1 ==> forall j :: 0 <= j < |s| ==> s[j].id != id
  {
    if |s| == 0 then -1
    else if s[0].id == id then 0
    else
      var k := IndexOfId(s[1..], id);
      if k == -1 then -1 else k + 1
  }

  /** The eviction step: when the special list is full, shift its oldest id off and splice
      that asteroid out of the main list. */
  function Evict(g: Game): (r: Game)
    ensures r == g.(asteroids := r.asteroids, specials := r.specials)
  {
    if |g.specials| >= MaxSpecialAsteroids then
      var oldest := g.specials[0];
      var idx := IndexOfId(g.asteroids, oldest);
      g.(specials := g.specials[1..], asteroids := if idx != -1 then Remove(g.asteroids, idx) else g.asteroids)
    else g
  }

  /** `Math.floor(Math.random() * specialPeople.length)` on draw d. */
  function Pick(rng: Random, d: nat): (idx: int)
    ensures 0 <= idx < |SpecialPeople|
  {
    FloorTimes(rng(d), |SpecialPeople|)
  }

  /** The do-while loop from draw d: draw until the index differs from `last` (or there is
      only one picture). `bound` is a later draw that does differ; it only serves termination. */
  function Retry(rng: Random, d: nat, last: int, ghost bound: nat): (r: Drawn<int>)
    requires d <= bound && Pick(rng, bound) != last
    ensures 0 <= r.value < |SpecialPeople| && r.value != last
    ensures d < r.next <= bound + 1 && r.value == Pick(rng, r.next - 1)
    ensures forall m :: d <= m < r.next - 1 ==> Pick(rng, m) == last
    decreases bound - d
  {
    var idx := Pick(rng, d);
    if idx == last && |SpecialPeople| > 1 then Retry(rng, d + 1, last, bound)
    else Drawn(idx, d + 1)
  }

  /** The retry loop's outcome does not depend on which differing draw bounds it. */
  lemma {:induction false} RetryAnyBound(rng: Random, d: nat, last: int, b1: nat, b2: nat)
    requires d <= b1 && Pick(rng, b1) != last
    requires d <= b2 && Pick(rng, b2) != last
    ensures Retry(rng, d, last, b1) == Retry(rng, d, last, b2)
    decreases b1 - d
  {
    if Pick(rng, d) == last {
      RetryAnyBound(rng, d + 1, last, b1, b2);
    }
  }

  /** The retry loop from draw d ends at the first draw n that differs from `last`. */
  lemma {:induction false} RetryStopsAt(rng: Random, d: nat, last: int, bound: nat, n: nat)
    requires d <= n <= bound && Pick(rng, bound) != last
    requires forall m :: d <= m < n ==> Pick(rng, m) == last
    requires Pick(rng, n) != last
    ensures Retry(rng, d, last, bound) == Drawn(Pick(rng, n), n + 1)
    decreases n - d
  {
    if d < n {
      RetryStopsAt(rng, d + 1, last, bound, n);
    }
  }

  /** One call of spawnSpecialPerson, given a draw `bound` at which the retry loop is
      known to stop; by SpawnAnyBound the result does not depend on the choice. */
  function Spawn(g: Game, rng: Random, ghost bound: nat): (r: Game)
    requires g.draws <= bound && Pick(rng, bound) != g.lastSpecial
  {
    var e := Evict(g);
    var idx := Retry(rng, e.draws, e.lastSpecial, bound);
    var made := Fresh(e.nextId, Person(idx.value), false, rng, idx.next);
    e.(lastSpecial := idx.value,
       asteroids := e.asteroids + [made.value],
       specials := e.specials + [e.nextId],
       nextId := e.nextId + 1,
       draws := made.next)
  }

  // ---------------------------------------------------------------------------
  // Lemmas

  /** With a full list the oldest special id is shifted off. Its asteroid is spliced out
      when indexOf finds it, and the asteroid list is left alone when it is already gone
      (createAsteroids dropped it). Either way no asteroid with that id remains. */
  lemma {:induction false} EvictRemovesOldest(g: Game)
    requires GameOk(g) && |g.specials| >= MaxSpecialAsteroids
    ensures var r := Evict(g);
      var oldest := g.specials[0];
      var k := IndexOfId(g.asteroids, oldest);
      && r.specials == g.specials[1..]
      && (k == -1 <==> !HasId(g.asteroids, oldest))
      && (k == -1 ==> r.asteroids == g.asteroids)
      && (k != -1 ==> r.asteroids == Remove(g.asteroids, k))
      && (forall j :: 0 <= j < |r.asteroids| ==> r.asteroids[j].id != oldest)
      && oldest !in r.specials
  {
    var oldest := g.specials[0];
    var k := IndexOfId(g.asteroids, oldest);
    var r := Evict(g);
    if k != -1 {
      assert g.asteroids[k].id == oldest;
      forall j | 0 <= j < |r.asteroids| ensures r.asteroids[j].id != oldest {
        if j < k {
          assert r.asteroids[j] == g.asteroids[j];
        } else {
          assert r.asteroids[j] == g.asteroids[j + 1];
        }
      }
    }
    forall l | 0 <= l < |r.specials| ensures r.specials[l] != oldest {
      assert r.specials[l] == g.specials[l + 1];
    }
  }

  /** Eviction keeps the roster invariant, with room for one more special. */
  lemma {:induction false} EvictKeepsRoster(g: Game)
    requires GameOk(g)
    ensures var r := Evict(g);
      && AllOk(r.asteroids) && RosterOk(r.asteroids, r.specials, r.nextId)
      && |r.specials| < MaxSpecialAsteroids
  {
    if |g.specials| >= MaxSpecialAsteroids {
      EvictRemovesOldest(g);
      EvictedLooksMatch(g);
    }
  }

  /** After eviction an asteroid is still special exactly when its id is listed. */
  lemma {:induction false} EvictedLooksMatch(g: Game)
    requires GameOk(g) && |g.specials| >= MaxSpecialAsteroids
    ensures var r := Evict(g);
      forall i :: 0 <= i < |r.asteroids| ==> (r.asteroids[i].IsSpecial() <==> r.asteroids[i].id in r.specials)
  {
    EvictRemovesOldest(g);
    var oldest := g.specials[0];
    var k := IndexOfId(g.asteroids, oldest);
    var r := Evict(g);
    var s, t := g.asteroids, r.asteroids;
    forall i | 0 <= i < |t| ensures t[i].IsSpecial() <==> t[i].id in r.specials {
      var si := if k == -1 || i < k then i else i + 1;
      assert t[i] == s[si];
      assert t[i].id != oldest;
      if t[i].id in g.specials {
        var l :| 0 <= l < |g.specials| && g.specials[l] == t[i].id;
        assert r.specials[l - 1] == t[i].id;
      }
    }
  }

  /** What one spawn does: the special list stays at most two long; when it was full its
      oldest entry is gone from both lists; the new asteroid, with a fresh id, is appended to
      both lists just above the top, showing a picture other than the previous one; score,
      player, bullets and flags are untouched; the invariant holds. */
  lemma {:induction false} SpawnSpec(g: Game, rng: Random, bound: nat)
    requires GameOk(g) && g.draws <= bound && Pick(rng, bound) != g.lastSpecial
    ensures var r := Spawn(g, rng, bound);
      var full := |g.specials| >= MaxSpecialAsteroids;
      var kept := if full then g.specials[1..] else g.specials;
      var a := r.asteroids[|r.asteroids| - 1];
      && GameOk(r)
      && r.specials == kept + [g.nextId]
      && r.asteroids == Evict(g).asteroids + [a]
      && (full ==> !HasId(r.asteroids, g.specials[0]) && g.specials[0] !in r.specials)
      && |r.asteroids| == |g.asteroids| + (if full && HasId(g.asteroids, g.specials[0]) then 0 else 1)
      && a.id == g.nextId && a.look == Person(r.lastSpecial)
      && a.y == -(AsteroidSize as real) && AsteroidOk(a)
      && r.lastSpecial != g.lastSpecial && 0 <= r.lastSpecial < |SpecialPeople|
      && r.playerX == g.playerX && r.bullets == g.bullets && r.score == g.score
      && r.bestScore == g.bestScore && r.deaths == g.deaths
      && r.gameOver == g.gameOver && r.autoplay == g.autoplay
  {
    var e := Evict(g);
    EvictKeepsRoster(g);
    var r := Spawn(g, rng, bound);
    var a := r.asteroids[|e.asteroids|];
    assert r.asteroids == e.asteroids + [a];
    AppendSpecialKeepsRoster(e.asteroids, e.specials, e.nextId, a);
    if |g.specials| >= MaxSpecialAsteroids {
      EvictRemovesOldest(g);
      assert a.id != g.specials[0];
      forall j | 0 <= j < |r.asteroids| ensures r.asteroids[j].id != g.specials[0] {
        if j < |e.asteroids| {
          assert r.asteroids[j] == e.asteroids[j];
        }
      }
    }
  }

  /** Appending a special asteroid with a new id to both lists keeps the roster invariant. */
  lemma {:induction false} AppendSpecialKeepsRoster(s: seq<Asteroid>, specials: seq<nat>, nextId: nat, a: Asteroid)
    requires RosterOk(s, specials, nextId) && |specials| < MaxSpecialAsteroids
    requires a.id == nextId && a.look.Person? && a.look.index < |SpecialPeople|
    ensures RosterOk(s + [a], specials + [nextId], nextId + 1)
  {
    var t := s + [a];
    var sp := specials + [nextId];
    assert forall i :: 0 <= i < |s| ==> t[i] == s[i];
    forall i | 0 <= i < |t| ensures t[i].IsSpecial() <==> t[i].id in sp {
      if i < |s| {
        assert t[i].id < nextId;
        assert t[i].id in sp <==> t[i].id in specials;
      }
    }
  }

  /** Spawn does not depend on which stopping draw is chosen. */
  lemma {:induction false} SpawnAnyBound(g: Game, rng: Random, b1: nat, b2: nat)
    requires g.draws <= b1 && Pick(rng, b1) != g.lastSpecial
    requires g.draws <= b2 && Pick(rng, b2) != g.lastSpecial
    ensures Spawn(g, rng, b1) == Spawn(g, rng, b2)
  {
    RetryAnyBound(rng, g.draws, g.lastSpecial, b1, b2);
  }
}
