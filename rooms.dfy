/**
 * The facility map as the game mode sees it: zones, room kinds, the table of
 * rooms that may host a capture point, the table of rooms players may spawn
 * in, and the choice of the two capture points as the farthest-apart pair.
 */
module Rooms {
  import opened Wrappers

  /** The facility zones a configuration may name (Exiled's ZoneType). */
  datatype Zone = Unspecified | LightContainment | HeavyContainment | Entrance | Surface | Other

  /** The room kinds the two tables mention; every other kind is OtherKind. */
  datatype RoomKind =
    | LczCrossing | LczCurve | LczStraight | LczTCross | LczPlants | LczToilets | LczAirlock | LczCafe
    | HczCrossing | HczArmory | HczCurve | HczHid | HczStraight | HczTCross
    | EzConference | EzCafeteria | EzCurve | EzStraight | EzTCross | EzCrossing
    | OtherKind

  /** One room of the generated map: its identity, its zone and its kind. */
  datatype Room = Room(id: nat, zone: Zone, kind: RoomKind)

  /** Rooms that may become a capture point, per zone. Entrance has no entry. */
  const TakeoverPointSpawns: map<Zone, set<RoomKind>> := map[
    LightContainment := {LczCrossing, LczCurve, LczStraight, LczTCross, LczPlants, LczToilets},
    HeavyContainment := {HczCrossing, HczArmory, HczCurve, HczHid, HczStraight, HczTCross}
  ]

  /** Rooms players are spawned in at the start of play, per zone. */
  const PlayerSpawnRooms: map<Zone, set<RoomKind>> := map[
    LightContainment := {LczAirlock, LczCafe, LczCrossing, LczCurve, LczPlants, LczStraight, LczToilets, LczTCross},
    HeavyContainment := {HczCrossing, HczCurve, HczHid, HczStraight, HczTCross},
    Entrance := {EzConference, EzCafeteria, EzCurve, EzStraight, EzTCross, EzCrossing}
  ]

  /**
   * The capture-point room kinds of a zone, or None when the zone has no
   * entry in the table (the game mode is then switched off).
   */
  function TakeoverKinds(zone: Zone): (kinds: Option<set<RoomKind>>)
    ensures kinds.Some? <==> zone == LightContainment || zone == HeavyContainment
    ensures kinds.Some? ==> kinds.value != {} && forall k :: k in kinds.value ==> k != OtherKind
  {
    if zone in TakeoverPointSpawns then Some(TakeoverPointSpawns[zone]) else None
  }

  /** The rooms of a list that satisfy a condition, in list order (LINQ's Where). */
  function Filter(rooms: seq<Room>, keep: Room -> bool): (r: seq<Room>)
    ensures |r| <= |rooms|
    ensures forall x :: x in r <==> x in rooms && keep(x)
  {
    if rooms == [] then []
    else (if keep(rooms[0]) then [rooms[0]] else []) + Filter(rooms[1..], keep)
  }

  /** The rooms of the map that may host a capture point in the configured zone. */
  function TakeoverCandidates(roomList: seq<Room>, zone: Zone, kinds: set<RoomKind>): (r: seq<Room>)
    ensures forall x :: x in r <==> x in roomList && x.zone == zone && x.kind in kinds
  {
    Filter(roomList, (x: Room) => x.zone == zone && x.kind in kinds)
  }

  /**
   * The rooms players may be spawned in: a kind listed for the configured zone,
   * and neither capture point. None when the zone has no entry in the table
   * (the dictionary lookup throws).
   */
  function SpawnableRooms(roomList: seq<Room>, zone: Zone, pointA: Option<Room>, pointB: Option<Room>)
    : (r: Option<seq<Room>>)
    ensures r.None? <==> zone !in PlayerSpawnRooms
    ensures r.Some? ==> forall x :: x in r.value <==>
              x in roomList && x.kind in PlayerSpawnRooms[zone] && Some(x) != pointA && Some(x) != pointB
  {
    if zone !in PlayerSpawnRooms then None
    else Some(Filter(roomList, (x: Room) => x.kind in PlayerSpawnRooms[zone] && Some(x) != pointA && Some(x) != pointB))
  }

  /** (i, j) is a pair of distinct positions of a list of n, in loop order i < j. */
  predicate IsPair(n: int, i: int, j: int)
  {
    0 <= i < j < n
  }

  /** The nested loops visit pair (i, j) before pair (k, l). */
  predicate Earlier(i: int, j: int, k: int, l: int)
  {
    i < k || (i == k && j < l)
  }

  /**
   * (i, j) is the pair the farthest-pair search settles on: its distance is
   * positive, no pair is farther, and every pair visited before it is strictly
   * nearer (ties go to the first pair in loop order).
   */
  ghost predicate FirstFurthest<P>(positions: seq<P>, distance: (P, P) -> real, i: int, j: int)
  {
    IsPair(|positions|, i, j) &&
    distance(positions[i], positions[j]) > 0.0 &&
    (forall k, l :: IsPair(|positions|, k, l) ==>
       distance(positions[k], positions[l]) <= distance(positions[i], positions[j])) &&
    (forall k, l :: IsPair(|positions|, k, l) && Earlier(k, l, i, j) ==>
       distance(positions[k], positions[l]) < distance(positions[i], positions[j]))
  }

  lemma FirstFurthestUnique<P>(positions: seq<P>, distance: (P, P) -> real, i: int, j: int, k: int, l: int)
    requires FirstFurthest(positions, distance, i, j)
    requires FirstFurthest(positions, distance, k, l)
    ensures i == k && j == l
  {
  }

  /**
   * The state of the search once every pair visited before (ci, cj) has been
   * looked at: maxDistance and pair are the farthest pair so far, with ties
   * kept by the earlier pair, and maxDistance stays 0 while no pair has been
   * kept.
   */
  ghost predicate SearchedUpTo<P>(positions: seq<P>, distance: (P, P) -> real, ci: int, cj: int,
                                  maxDistance: real, pair: Option<(nat, nat)>)
  {
    var n := |positions|;
    (forall k, l :: IsPair(n, k, l) && Earlier(k, l, ci, cj) ==>
       distance(positions[k], positions[l]) <= maxDistance) &&
    (pair.None? ==> maxDistance == 0.0) &&
    (pair.Some? ==>
       IsPair(n, pair.value.0, pair.value.1) && Earlier(pair.value.0, pair.value.1, ci, cj) &&
       maxDistance == distance(positions[pair.value.0], positions[pair.value.1]) > 0.0 &&
       forall k, l :: IsPair(n, k, l) && Earlier(k, l, pair.value.0, pair.value.1) ==>
         distance(positions[k], positions[l]) < maxDistance)
  }

  lemma SearchedStep<P>(positions: seq<P>, distance: (P, P) -> real, i: int, j: int,
                        maxDistance: real, pair: Option<(nat, nat)>)
    requires IsPair(|positions|, i, j)
    requires SearchedUpTo(positions, distance, i, j, maxDistance, pair)
    ensures var d := distance(positions[i], positions[j]);
            if d > maxDistance then SearchedUpTo(positions, distance, i, j + 1, d, Some((i, j)))
            else SearchedUpTo(positions, distance, i, j + 1, maxDistance, pair)
  {
  }

  lemma SearchedNextRow<P>(positions: seq<P>, distance: (P, P) -> real, i: int, maxDistance: real, pair: Option<(nat, nat)>)
    requires 0 <= i < |positions|
    requires SearchedUpTo(positions, distance, i, |positions|, maxDistance, pair)
    ensures SearchedUpTo(positions, distance, i + 1, i + 2, maxDistance, pair)
  {
    var n := |positions|;
    forall k, l | IsPair(n, k, l) && Earlier(k, l, i + 1, i + 2)
      ensures distance(positions[k], positions[l]) <= maxDistance
    {
      assert Earlier(k, l, i, n);
    }
  }

  lemma SearchedAll<P>(positions: seq<P>, distance: (P, P) -> real, maxDistance: real, pair: Option<(nat, nat)>)
    requires SearchedUpTo(positions, distance, |positions|, |positions| + 1, maxDistance, pair)
    ensures pair.None? <==>
              forall k, l :: IsPair(|positions|, k, l) ==> distance(positions[k], positions[l]) <= 0.0
    ensures forall i: nat, j: nat :: pair == Some((i, j)) <==> FirstFurthest(positions, distance, i, j)
  {
    var n := |positions|;
    if pair.Some? {
      var (pi, pj) := pair.value;
      assert FirstFurthest(positions, distance, pi, pj) by {
        forall k, l | IsPair(n, k, l) ensures distance(positions[k], positions[l]) <= maxDistance {
          assert Earlier(k, l, n, n + 1);
        }
      }
      forall i: nat, j: nat | FirstFurthest(positions, distance, i, j) ensures pair == Some((i, j)) {
        FirstFurthestUnique(positions, distance, i, j, pi, pj);
      }
    } else {
      forall k, l | IsPair(n, k, l) ensures distance(positions[k], positions[l]) <= 0.0 {
        assert Earlier(k, l, n, n + 1);
      }
    }
  }

  /**
   * The farthest pair of rooms, by a nested loop over all pairs i < j that
   * keeps a pair only when it is strictly farther than the best so far
   * (starting from 0). None stands for (null, null): fewer than two rooms, or
   * no pair at a positive distance.
   */
  method GetFurthestRooms<P>(positions: seq<P>, distance: (P, P) -> real) returns (pair: Option<(nat, nat)>)
    ensures pair.None? <==>
              forall k, l :: IsPair(|positions|, k, l) ==> distance(positions[k], positions[l]) <= 0.0
    ensures forall i: nat, j: nat :: pair == Some((i, j)) <==> FirstFurthest(positions, distance, i, j)
  {
    var n := |positions|;
    var maxDistance := 0.0;
    pair := None;
    for i := 0 to n
      invariant SearchedUpTo(positions, distance, i, i + 1, maxDistance, pair)
    {
      for j := i + 1 to n
        invariant SearchedUpTo(positions, distance, i, j, maxDistance, pair)
      {
        var d := distance(positions[i], positions[j]);
        SearchedStep(positions, distance, i, j, maxDistance, pair);
        if d > maxDistance {
          maxDistance := d;
          pair := Some((i, j));
        }
      }
      SearchedNextRow(positions, distance, i, maxDistance, pair);
    }
    SearchedAll(positions, distance, maxDistance, pair);
  }
}
