/**
 * Phase 1 of a tick: each player's distances to the two capture points, the
 * room the player stands in and the player's team decide whether the player
 * is added to, removed from or left alone in the four presence buckets
 * (point A's "A" and "B" sets, point B's "A" and "B" sets). The buckets
 * persist from tick to tick; a player is only ever touched by the player's
 * own observation.
 */
module Presence {
  import opened Wrappers
  import opened Teams
  import opened Rooms

  /** What the tick reads about one player: distances to both points and the current room (null when outside any room). */
  datatype Observation = Observation(player: Player, distA: real, distB: real, room: Option<Room>)

  /** What stays fixed during a tick: the distance threshold, the two capture-point rooms and the teams. */
  datatype Arena = Arena(calculateDistance: real, pointA: Option<Room>, pointB: Option<Room>,
                         teamA: set<Player>, teamB: set<Player>)

  /** One point's dictionary: the players of team A ("A") and of team B ("B") counted at it. */
  datatype Occupants = Occupants(a: set<Player>, b: set<Player>)

  /** Both points' dictionaries. */
  datatype Buckets = Buckets(atA: Occupants, atB: Occupants)

  const NoOccupants := Occupants({}, {})
  const NoBuckets := Buckets(NoOccupants, NoOccupants)

  /** One player's membership in the four buckets: point A's "A" and "B", point B's "A" and "B". */
  datatype Slots = Slots(aA: bool, aB: bool, bA: bool, bB: bool)

  const NoSlots := Slots(false, false, false, false)

  /** Strictly within the threshold of point A and strictly beyond that of point B. */
  predicate NearAOnly(o: Observation, d: real) { o.distA < d && o.distB > d }

  /** Strictly beyond the threshold of point A and strictly within that of point B. */
  predicate NearBOnly(o: Observation, d: real) { o.distA > d && o.distB < d }

  /** Strictly within the threshold of both points. */
  predicate NearBoth(o: Observation, d: real) { o.distA < d && o.distB < d }

  function SlotsOf(b: Buckets, p: Player): Slots
  {
    Slots(p in b.atA.a, p in b.atA.b, p in b.atB.a, p in b.atB.b)
  }

  /** The buckets with player p's membership set to s and everybody else's left as it was. */
  function Place(b: Buckets, p: Player, s: Slots): (r: Buckets)
    ensures SlotsOf(r, p) == s
    ensures forall q :: q != p ==> SlotsOf(r, q) == SlotsOf(b, q)
  {
    Buckets(
      Occupants(if s.aA then b.atA.a + {p} else b.atA.a - {p},
                if s.aB then b.atA.b + {p} else b.atA.b - {p}),
      Occupants(if s.bA then b.atB.a + {p} else b.atB.a - {p},
                if s.bB then b.atB.b + {p} else b.atB.b - {p}))
  }

  /** Two bucket states that agree on every player's membership are equal. */
  lemma SlotsDetermineBuckets(x: Buckets, y: Buckets)
    requires forall q :: SlotsOf(x, q) == SlotsOf(y, q)
    ensures x == y
  {
    assert forall q :: q in x.atA.a <==> SlotsOf(x, q).aA;
    assert forall q :: q in y.atA.a <==> SlotsOf(y, q).aA;
    assert x.atA.a == y.atA.a;
    assert forall q :: q in x.atA.b <==> SlotsOf(x, q).aB;
    assert forall q :: q in y.atA.b <==> SlotsOf(y, q).aB;
    assert x.atA.b == y.atA.b;
    assert forall q :: q in x.atB.a <==> SlotsOf(x, q).bA;
    assert forall q :: q in y.atB.a <==> SlotsOf(y, q).bA;
    assert x.atB.a == y.atB.a;
    assert forall q :: q in x.atB.b <==> SlotsOf(x, q).bB;
    assert forall q :: q in y.atB.b <==> SlotsOf(y, q).bB;
    assert x.atB.b == y.atB.b;
  }

  /** A player in point A's room joins its "A" set if on team A, else its "B" set if on team B, else nothing. */
  function JoinA(p: Player, teamA: set<Player>, teamB: set<Player>, s: Slots): Slots
  {
    if p in teamA then s.(aA := true)
    else if p in teamB then s.(aB := true)
    else s
  }

  /** The same for point B's room and point B's sets. */
  function JoinB(p: Player, teamA: set<Player>, teamB: set<Player>, s: Slots): Slots
  {
    if p in teamA then s.(bA := true)
    else if p in teamB then s.(bB := true)
    else s
  }

  /**
   * One player's new membership, given the old one. Near point A only: the
   * player joins point A when in its room and otherwise leaves point A, point
   * B's sets are not looked at. Near point B only: the mirror image. Near
   * both: point A's room is checked first, then point B's; in neither room the
   * player leaves all four sets. Every other case, the boundaries included,
   * empties all four.
   */
  function Decide(o: Observation, arena: Arena, s: Slots): (r: Slots)
    // a player only ever enters a set when strictly near that point, in its room and on that team
    ensures r.aA && !s.aA ==> o.distA < arena.calculateDistance && o.room == arena.pointA && o.player in arena.teamA
    ensures r.aB && !s.aB ==> o.distA < arena.calculateDistance && o.room == arena.pointA &&
                              o.player !in arena.teamA && o.player in arena.teamB
    ensures r.bA && !s.bA ==> o.distB < arena.calculateDistance && o.room == arena.pointB && o.player in arena.teamA
    ensures r.bB && !s.bB ==> o.distB < arena.calculateDistance && o.room == arena.pointB &&
                              o.player !in arena.teamA && o.player in arena.teamB
    // on the threshold of either point, or beyond both, the player is in no set
    ensures o.distA == arena.calculateDistance || o.distB == arena.calculateDistance ==> r == NoSlots
    ensures o.distA > arena.calculateDistance && o.distB > arena.calculateDistance ==> r == NoSlots
  {
    var d := arena.calculateDistance;
    if o.distA < d && o.distB > d then
      if o.room == arena.pointA then JoinA(o.player, arena.teamA, arena.teamB, s)
      else s.(aA := false, aB := false)
    else if o.distA > d && o.distB < d then
      if o.room == arena.pointB then JoinB(o.player, arena.teamA, arena.teamB, s)
      else s.(bA := false, bB := false)
    else if o.distA < d && o.distB < d then
      if o.room == arena.pointA then JoinA(o.player, arena.teamA, arena.teamB, s)
      else if o.room == arena.pointB then JoinB(o.player, arena.teamA, arena.teamB, s)
      else NoSlots
    else
      NoSlots
  }

  /** The buckets after one player's observation: only that player's membership changes. */
  function ClassifyPlayer(o: Observation, arena: Arena, b: Buckets): Buckets
  {
    Place(b, o.player, Decide(o, arena, SlotsOf(b, o.player)))
  }

  /** The buckets after the players' observations, taken in list order. */
  function ClassifyAll(obs: seq<Observation>, arena: Arena, b: Buckets): Buckets
  {
    if obs == [] then b
    else ClassifyPlayer(obs[|obs| - 1], arena, ClassifyAll(obs[..|obs| - 1], arena, b))
  }

  /** Each player is observed once per tick (the engine's player list holds each player once). */
  predicate DistinctPlayers(obs: seq<Observation>)
  {
    forall i, j :: 0 <= i < j < |obs| ==> obs[i].player != obs[j].player
  }

  /** Player q is not observed this tick. */
  predicate Unobserved(obs: seq<Observation>, q: Player)
  {
    forall k :: 0 <= k < |obs| ==> obs[k].player != q
  }

  /**
   * After the pass, an observed player's membership is the decision on that
   * player's own observation and own previous membership; an unobserved
   * player's membership is unchanged.
   */
  lemma {:induction false} ClassifyAllSlots(obs: seq<Observation>, arena: Arena, b: Buckets, q: Player)
    requires DistinctPlayers(obs)
    ensures forall k :: 0 <= k < |obs| && obs[k].player == q ==>
              SlotsOf(ClassifyAll(obs, arena, b), q) == Decide(obs[k], arena, SlotsOf(b, q))
    ensures Unobserved(obs, q) ==> SlotsOf(ClassifyAll(obs, arena, b), q) == SlotsOf(b, q)
  {
    if obs != [] {
      var init := obs[..|obs| - 1];
      var last := obs[|obs| - 1];
      assert DistinctPlayers(init);
      ClassifyAllSlots(init, arena, b, q);
      if last.player == q {
        assert Unobserved(init, q);
      } else {
        forall k | 0 <= k < |obs| && obs[k].player == q
          ensures k < |obs| - 1 && obs[k] == init[k]
        {
        }
      }
    }
  }

  lemma SameObservationsSamePlayers(obs1: seq<Observation>, obs2: seq<Observation>, q: Player)
    requires multiset(obs1) == multiset(obs2)
    ensures Unobserved(obs1, q) <==> Unobserved(obs2, q)
  {
    if !Unobserved(obs1, q) {
      var k1 :| 0 <= k1 < |obs1| && obs1[k1].player == q;
      assert obs1[k1] in multiset(obs2);
    }
    if !Unobserved(obs2, q) {
      var k2 :| 0 <= k2 < |obs2| && obs2[k2].player == q;
      assert obs2[k2] in multiset(obs1);
    }
  }

  /** The pass does not depend on the order in which the players are listed. */
  lemma ClassifyAllOrderIrrelevant(obs1: seq<Observation>, obs2: seq<Observation>, arena: Arena, b: Buckets)
    requires DistinctPlayers(obs1) && DistinctPlayers(obs2)
    requires multiset(obs1) == multiset(obs2)
    ensures ClassifyAll(obs1, arena, b) == ClassifyAll(obs2, arena, b)
  {
    var r1 := ClassifyAll(obs1, arena, b);
    var r2 := ClassifyAll(obs2, arena, b);
    forall q ensures SlotsOf(r1, q) == SlotsOf(r2, q) {
      ClassifyAllSlots(obs1, arena, b, q);
      ClassifyAllSlots(obs2, arena, b, q);
      SameObservationsSamePlayers(obs1, obs2, q);
      if !Unobserved(obs1, q) {
        var k1 :| 0 <= k1 < |obs1| && obs1[k1].player == q;
        assert obs1[k1] in multiset(obs2);
        var k2 :| 0 <= k2 < |obs2| && obs2[k2] == obs1[k1];
      }
    }
    SlotsDetermineBuckets(r1, r2);
  }

  /**
   * Near point A only: in point A's room the player joins point A's "A" set
   * if on team A, else its "B" set if on team B, else stays as before;
   * outside that room the player leaves both of point A's sets. Point B's sets
   * keep whatever the player's membership was.
   */
  lemma PassNearAOnly(obs: seq<Observation>, arena: Arena, b: Buckets, k: nat)
    requires DistinctPlayers(obs) && k < |obs|
    requires NearAOnly(obs[k], arena.calculateDistance)
    ensures var p, r := obs[k].player, ClassifyAll(obs, arena, b);
            (p in r.atB.a <==> p in b.atB.a) && (p in r.atB.b <==> p in b.atB.b) &&
            (obs[k].room == arena.pointA && p in arena.teamA ==> p in r.atA.a && (p in r.atA.b <==> p in b.atA.b)) &&
            (obs[k].room == arena.pointA && p !in arena.teamA && p in arena.teamB ==>
               p in r.atA.b && (p in r.atA.a <==> p in b.atA.a)) &&
            (obs[k].room == arena.pointA && p !in arena.teamA && p !in arena.teamB ==>
               (p in r.atA.a <==> p in b.atA.a) && (p in r.atA.b <==> p in b.atA.b)) &&
            (obs[k].room != arena.pointA ==> p !in r.atA.a && p !in r.atA.b)
  {
    ClassifyAllSlots(obs, arena, b, obs[k].player);
  }

  /** Near point B only: the mirror image of PassNearAOnly. */
  lemma PassNearBOnly(obs: seq<Observation>, arena: Arena, b: Buckets, k: nat)
    requires DistinctPlayers(obs) && k < |obs|
    requires NearBOnly(obs[k], arena.calculateDistance)
    ensures var p, r := obs[k].player, ClassifyAll(obs, arena, b);
            (p in r.atA.a <==> p in b.atA.a) && (p in r.atA.b <==> p in b.atA.b) &&
            (obs[k].room == arena.pointB && p in arena.teamA ==> p in r.atB.a && (p in r.atB.b <==> p in b.atB.b)) &&
            (obs[k].room == arena.pointB && p !in arena.teamA && p in arena.teamB ==>
               p in r.atB.b && (p in r.atB.a <==> p in b.atB.a)) &&
            (obs[k].room == arena.pointB && p !in arena.teamA && p !in arena.teamB ==>
               (p in r.atB.a <==> p in b.atB.a) && (p in r.atB.b <==> p in b.atB.b)) &&
            (obs[k].room != arena.pointB ==> p !in r.atB.a && p !in r.atB.b)
  {
    ClassifyAllSlots(obs, arena, b, obs[k].player);
  }

  /**
   * Near both points: a player in point A's room only touches point A's sets,
   * otherwise a player in point B's room only touches point B's sets,
   * otherwise the player leaves all four sets.
   */
  lemma PassNearBoth(obs: seq<Observation>, arena: Arena, b: Buckets, k: nat)
    requires DistinctPlayers(obs) && k < |obs|
    requires NearBoth(obs[k], arena.calculateDistance)
    ensures var p, r := obs[k].player, ClassifyAll(obs, arena, b);
            (obs[k].room == arena.pointA ==>
               SlotsOf(r, p) == JoinA(p, arena.teamA, arena.teamB, SlotsOf(b, p)) &&
               (p in r.atB.a <==> p in b.atB.a) && (p in r.atB.b <==> p in b.atB.b)) &&
            (obs[k].room != arena.pointA && obs[k].room == arena.pointB ==>
               SlotsOf(r, p) == JoinB(p, arena.teamA, arena.teamB, SlotsOf(b, p)) &&
               (p in r.atA.a <==> p in b.atA.a) && (p in r.atA.b <==> p in b.atA.b)) &&
            (obs[k].room != arena.pointA && obs[k].room != arena.pointB ==>
               p !in r.atA.a && p !in r.atA.b && p !in r.atB.a && p !in r.atB.b)
  {
    ClassifyAllSlots(obs, arena, b, obs[k].player);
  }

  /**
   * In every other distance case, a distance equal to the threshold
   * included, the player ends the pass in none of the four sets.
   */
  lemma PassOtherwise(obs: seq<Observation>, arena: Arena, b: Buckets, k: nat)
    requires DistinctPlayers(obs) && k < |obs|
    requires !NearAOnly(obs[k], arena.calculateDistance) && !NearBOnly(obs[k], arena.calculateDistance)
    requires !NearBoth(obs[k], arena.calculateDistance)
    ensures var p, r := obs[k].player, ClassifyAll(obs, arena, b);
            p !in r.atA.a && p !in r.atA.b && p !in r.atB.a && p !in r.atB.b
  {
    ClassifyAllSlots(obs, arena, b, obs[k].player);
  }

  /** Every "A" set only ever holds team A players and every "B" set only team B players. */
  predicate TeamsRespected(b: Buckets, arena: Arena)
  {
    b.atA.a <= arena.teamA && b.atA.b <= arena.teamB && b.atB.a <= arena.teamA && b.atB.b <= arena.teamB
  }

  lemma {:induction false} ClassifyAllRespectsTeams(obs: seq<Observation>, arena: Arena, b: Buckets)
    requires TeamsRespected(b, arena)
    ensures TeamsRespected(ClassifyAll(obs, arena, b), arena)
  {
    if obs != [] {
      var before := ClassifyAll(obs[..|obs| - 1], arena, b);
      ClassifyAllRespectsTeams(obs[..|obs| - 1], arena, b);
      var o := obs[|obs| - 1];
      var after := ClassifyPlayer(o, arena, before);
      forall q ensures (SlotsOf(after, q).aA ==> q in arena.teamA) && (SlotsOf(after, q).aB ==> q in arena.teamB)
                    && (SlotsOf(after, q).bA ==> q in arena.teamA) && (SlotsOf(after, q).bB ==> q in arena.teamB)
      {
        if q != o.player {
          assert SlotsOf(after, q) == SlotsOf(before, q);
        }
      }
      assert forall q :: q in after.atA.a ==> SlotsOf(after, q).aA;
      assert forall q :: q in after.atA.b ==> SlotsOf(after, q).aB;
      assert forall q :: q in after.atB.a ==> SlotsOf(after, q).bA;
      assert forall q :: q in after.atB.b ==> SlotsOf(after, q).bB;
    }
  }

  /**
   * The point B sets are left alone while a player is near point A only, so a
   * player who was counted at point B and reaches point A's room within one
   * tick is counted at both points.
   */
  lemma CountedAtBothPoints()
    ensures var roomA, roomB := Room(1, LightContainment, LczCurve), Room(2, LightContainment, LczPlants);
            var arena := Arena(15.0, Some(roomA), Some(roomB), {7}, {8});
            var first := ClassifyAll([Observation(7, 20.0, 5.0, Some(roomB))], arena, NoBuckets);
            var second := ClassifyAll([Observation(7, 5.0, 20.0, Some(roomA))], arena, first);
            7 in first.atB.a && 7 !in first.atA.a && 7 in second.atA.a && 7 in second.atB.a
  {
  }
}
