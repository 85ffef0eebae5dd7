/**
 * The game mode's event handler object: the persistent state of a round
 * (both points' presence dictionaries, the teams, the candidate rooms, the
 * two capture points and their occupation counters) and the handlers that
 * change it: map generation, round start, one tick of the point timer,
 * elevator use and round restart.
 */
module EventHandlers {
  import opened Wrappers
  import opened Teams
  import opened Rooms
  import opened Presence
  import opened Scoring

  /** A tick either runs to the end or stops at a dictionary key that is gone (KeyNotFoundException). */
  datatype TickOutcome = Ticked(pointA: PointReport, pointB: PointReport) | KeyNotFound

  /**
   * Map generation either sets both capture points, stops at a zone without
   * capture-point rooms, or finds no pair of rooms and stops when it reads
   * the position of the null room (NullReferenceException).
   */
  datatype MapOutcome = PointsSet | InvalidZone | NullReference

  /**
   * The candidate rooms after adding each of cs in turn to rs, as
   * HashSet.Add does: a room already present is skipped, a new one goes to
   * the end, so enumeration follows first insertion.
   */
  function AppendNew<T(==)>(rs: seq<T>, cs: seq<T>): (r: seq<T>)
    ensures |rs| <= |r| && r[..|rs|] == rs
    ensures Elements(r) == Elements(rs) + Elements(cs)
    ensures Distinct(rs) ==> Distinct(r)
    decreases |cs|
  {
    if cs == [] then rs
    else
      var prev := AppendNew(rs, cs[..|cs| - 1]);
      var c := cs[|cs| - 1];
      assert cs == cs[..|cs| - 1] + [c];
      assert Elements(cs) == Elements(cs[..|cs| - 1]) + {c};
      if c in prev then prev
      else
        assert Elements(prev + [c]) == Elements(prev) + {c};
        assert (prev + [c])[..|rs|] == prev[..|rs|];
        prev + [c]
  }

  /** Rooms that are all new and pairwise different are appended exactly in the given order. */
  lemma {:induction false} AppendNewFresh<T>(rs: seq<T>, cs: seq<T>)
    requires Distinct(rs + cs)
    ensures AppendNew(rs, cs) == rs + cs
    decreases |cs|
  {
    if cs != [] {
      var init := cs[..|cs| - 1];
      var c := cs[|cs| - 1];
      assert rs + cs == (rs + init) + [c];
      assert Distinct(rs + init) by {
        forall i, j | 0 <= i < j < |rs + init| ensures (rs + init)[i] != (rs + init)[j] {
          assert (rs + init)[i] == (rs + cs)[i] && (rs + init)[j] == (rs + cs)[j];
        }
      }
      AppendNewFresh(rs, init);
      assert c !in rs + init by {
        forall k | 0 <= k < |rs + init| ensures (rs + init)[k] != c {
          assert (rs + init)[k] == (rs + cs)[k] && c == (rs + cs)[|rs + cs| - 1];
        }
      }
    }
  }

  class PointTakeover {
    var pointAPlayers: map<Team, set<Player>>
    var pointBPlayers: map<Team, set<Player>>
    var teamA: set<Player>
    var teamB: set<Player>
    /** The candidate rooms, in the order they were first added; never emptied. */
    var rooms: seq<Room>
    var runGame: bool
    var takeoverPointA: Option<Room>
    var takeoverPointB: Option<Room>
    var pointAOccupyTime: int
    var pointBOccupyTime: int

    /** Both dictionaries hold both keys, or both were emptied by a restart. */
    ghost predicate Valid()
      reads this
    {
      (pointAPlayers.Keys == {TeamA, TeamB} && pointBPlayers.Keys == {TeamA, TeamB}) ||
      (pointAPlayers == map[] && pointBPlayers == map[])
    }

    predicate KeysPresent()
      reads this
    {
      TeamA in pointAPlayers && TeamB in pointAPlayers && TeamA in pointBPlayers && TeamB in pointBPlayers
    }

    /** The four presence sets, read through the dictionaries' "A" and "B" keys. */
    function CurrentBuckets(): Buckets
      reads this
      requires KeysPresent()
    {
      Buckets(Occupants(pointAPlayers[TeamA], pointAPlayers[TeamB]),
              Occupants(pointBPlayers[TeamA], pointBPlayers[TeamB]))
    }

    /** What a tick holds fixed, for a given distance threshold. */
    function ArenaFor(calculateDistance: real): Arena
      reads this
    {
      Arena(calculateDistance, takeoverPointA, takeoverPointB, teamA, teamB)
    }

    constructor ()
      ensures Valid() && KeysPresent() && CurrentBuckets() == NoBuckets
      ensures teamA == {} && teamB == {} && rooms == [] && runGame
      ensures takeoverPointA == None && takeoverPointB == None
      ensures pointAOccupyTime == 0 && pointBOccupyTime == 0
    {
      pointAPlayers := map[TeamA := {}, TeamB := {}];
      pointBPlayers := map[TeamA := {}, TeamB := {}];
      teamA, teamB := {}, {};
      rooms := [];
      runGame := true;
      takeoverPointA, takeoverPointB := None, None;
      pointAOccupyTime, pointBOccupyTime := 0, 0;
    }

    /**
     * Map generation: a zone without capture-point rooms switches the game
     * mode off. Otherwise the zone's capture-point rooms are added to the
     * candidate rooms and the farthest-apart pair becomes point A and point B.
     */
    method OnMapGenerated(zone: Zone, roomList: seq<Room>, roomDistance: (Room, Room) -> real)
      returns (outcome: MapOutcome)
      modifies this`rooms, this`runGame, this`takeoverPointA, this`takeoverPointB
      ensures TakeoverKinds(zone).None? ==>
                outcome == InvalidZone && !runGame && rooms == old(rooms) &&
                takeoverPointA == old(takeoverPointA) && takeoverPointB == old(takeoverPointB)
      ensures TakeoverKinds(zone).Some? ==>
                runGame == old(runGame) &&
                rooms == AppendNew(old(rooms), TakeoverCandidates(roomList, zone, TakeoverKinds(zone).value))
      ensures TakeoverKinds(zone).Some? ==>
                (outcome == PointsSet &&
                 exists i: nat, j: nat :: FirstFurthest(rooms, roomDistance, i, j) &&
                   takeoverPointA == Some(rooms[i]) && takeoverPointB == Some(rooms[j])) ||
                (outcome == NullReference && takeoverPointA == None && takeoverPointB == None &&
                 forall k, l :: IsPair(|rooms|, k, l) ==> roomDistance(rooms[k], rooms[l]) <= 0.0)
    {
      var kinds := TakeoverKinds(zone);
      if kinds.None? {
        runGame := false;
        return InvalidZone;
      }
      AddRooms(TakeoverCandidates(roomList, zone, kinds.value));
      var found := SetTakeoverPoint(roomDistance);
      outcome := if found then PointsSet else NullReference;
    }

    /**
     * Picks the first farthest-apart pair of candidate rooms as point A and
     * point B; with no pair at a positive distance both points stay null.
     */
    method SetTakeoverPoint(roomDistance: (Room, Room) -> real) returns (found: bool)
      modifies this`takeoverPointA, this`takeoverPointB
      ensures found ==>
                exists i: nat, j: nat :: FirstFurthest(rooms, roomDistance, i, j) &&
                  takeoverPointA == Some(rooms[i]) && takeoverPointB == Some(rooms[j])
      ensures !found ==>
                takeoverPointA == None && takeoverPointB == None &&
                forall k, l :: IsPair(|rooms|, k, l) ==> roomDistance(rooms[k], rooms[l]) <= 0.0
    {
      var pair := GetFurthestRooms(rooms, roomDistance);
      if pair.Some? {
        var (i, j) := pair.value;
        assert FirstFurthest(rooms, roomDistance, i, j);
        takeoverPointA := Some(rooms[i]);
        takeoverPointB := Some(rooms[j]);
        found := true;
      } else {
        takeoverPointA := None;
        takeoverPointB := None;
        found := false;
      }
    }

    /** Adds the candidate rooms in order; a room already present is skipped (HashSet.Add). */
    method AddRooms(candidates: seq<Room>)
      modifies this`rooms
      ensures rooms == AppendNew(old(rooms), candidates)
    {
      for i := 0 to |candidates|
        invariant rooms == AppendNew(old(rooms), candidates[..i])
      {
        assert candidates[..i + 1][..i] == candidates[..i];
        if candidates[i] !in rooms {
          rooms := rooms + [candidates[i]];
        }
      }
      assert candidates[..|candidates|] == candidates;
    }

    /**
     * Round start: nothing happens when the game mode is off; otherwise the
     * listed players are split into the two teams.
     */
    method OnRoundStarted(players: seq<Player>) returns (started: bool)
      modifies this`teamA, this`teamB
      ensures started == runGame
      ensures started ==> (teamA, teamB) == SplitTeams(players)
      ensures !started ==> teamA == old(teamA) && teamB == old(teamB)
    {
      if !runGame {
        return false;
      }
      var half := |players| / 2;
      teamA := Elements(players[..half]);
      teamB := Elements(players[half..]);
      started := true;
    }

    /** A player in point A's room joins its "A" set if on team A, else its "B" set if on team B. */
    method JoinPointA(p: Player)
      requires KeysPresent() && Valid()
      modifies this`pointAPlayers
      ensures KeysPresent() && Valid()
      ensures CurrentBuckets() == Place(old(CurrentBuckets()), p, JoinA(p, teamA, teamB, SlotsOf(old(CurrentBuckets()), p)))
    {
      if p in teamA {
        pointAPlayers := pointAPlayers[TeamA := pointAPlayers[TeamA] + {p}];
      } else if p in teamB {
        pointAPlayers := pointAPlayers[TeamB := pointAPlayers[TeamB] + {p}];
      }
    }

    /** The same for point B's room and point B's dictionary. */
    method JoinPointB(p: Player)
      requires KeysPresent() && Valid()
      modifies this`pointBPlayers
      ensures KeysPresent() && Valid()
      ensures CurrentBuckets() == Place(old(CurrentBuckets()), p, JoinB(p, teamA, teamB, SlotsOf(old(CurrentBuckets()), p)))
    {
      if p in teamA {
        pointBPlayers := pointBPlayers[TeamA := pointBPlayers[TeamA] + {p}];
      } else if p in teamB {
        pointBPlayers := pointBPlayers[TeamB := pointBPlayers[TeamB] + {p}];
      }
    }

    /** The player leaves both of point A's sets. */
    method LeavePointA(p: Player)
      requires KeysPresent() && Valid()
      modifies this`pointAPlayers
      ensures KeysPresent() && Valid()
      ensures CurrentBuckets() == Place(old(CurrentBuckets()), p, SlotsOf(old(CurrentBuckets()), p).(aA := false, aB := false))
    {
      pointAPlayers := pointAPlayers[TeamA := pointAPlayers[TeamA] - {p}];
      pointAPlayers := pointAPlayers[TeamB := pointAPlayers[TeamB] - {p}];
    }

    /** The player leaves both of point B's sets. */
    method LeavePointB(p: Player)
      requires KeysPresent() && Valid()
      modifies this`pointBPlayers
      ensures KeysPresent() && Valid()
      ensures CurrentBuckets() == Place(old(CurrentBuckets()), p, SlotsOf(old(CurrentBuckets()), p).(bA := false, bB := false))
    {
      pointBPlayers := pointBPlayers[TeamA := pointBPlayers[TeamA] - {p}];
      pointBPlayers := pointBPlayers[TeamB := pointBPlayers[TeamB] - {p}];
    }

    /**
     * One player's part of a tick: the distance case, the player's room and
     * team decide which of the four sets the player is added to or removed
     * from.
     */
    method ObservePlayer(o: Observation, d: real)
      requires KeysPresent() && Valid()
      modifies this`pointAPlayers, this`pointBPlayers
      ensures KeysPresent() && Valid()
      ensures CurrentBuckets() == ClassifyPlayer(o, ArenaFor(d), old(CurrentBuckets()))
    {
      if o.distA < d && o.distB > d {
        if o.room == takeoverPointA {
          JoinPointA(o.player);
        } else {
          LeavePointA(o.player);
        }
      } else if o.distA > d && o.distB < d {
        if o.room == takeoverPointB {
          JoinPointB(o.player);
        } else {
          LeavePointB(o.player);
        }
      } else if o.distA < d && o.distB < d {
        if o.room == takeoverPointA {
          JoinPointA(o.player);
        } else if o.room == takeoverPointB {
          JoinPointB(o.player);
        } else {
          LeavePointA(o.player);
          LeavePointB(o.player);
        }
      } else {
        LeavePointA(o.player);
        LeavePointB(o.player);
      }
    }

    /** Phase 1 of a tick: every listed player's observation, in list order. */
    method ObservePlayers(players: seq<Observation>, calculateDistance: real)
      requires KeysPresent() && Valid()
      modifies this`pointAPlayers, this`pointBPlayers
      ensures KeysPresent() && Valid()
      ensures CurrentBuckets() == ClassifyAll(players, ArenaFor(calculateDistance), old(CurrentBuckets()))
    {
      ghost var start := CurrentBuckets();
      ghost var arena := ArenaFor(calculateDistance);
      for i := 0 to |players|
        invariant KeysPresent() && Valid()
        invariant CurrentBuckets() == ClassifyAll(players[..i], arena, start)
      {
        assert players[..i + 1][..i] == players[..i];
        ObservePlayer(players[i], calculateDistance);
      }
      assert players[..|players|] == players;
    }

    /**
     * One tick of the point timer: every listed player's observation updates
     * the presence sets, then point A's and point B's counters are updated,
     * each from its own sets and its own counter only.
     */
    method Tick(players: seq<Observation>, occupyTime: int, calculateDistance: real) returns (outcome: TickOutcome)
      requires Valid()
      modifies this`pointAPlayers, this`pointBPlayers, this`pointAOccupyTime, this`pointBOccupyTime
      ensures Valid()
      ensures !old(KeysPresent()) ==>
                outcome == KeyNotFound &&
                pointAPlayers == old(pointAPlayers) && pointBPlayers == old(pointBPlayers) &&
                pointAOccupyTime == old(pointAOccupyTime) && pointBOccupyTime == old(pointBOccupyTime)
      ensures old(KeysPresent()) ==>
                KeysPresent() &&
                CurrentBuckets() == ClassifyAll(players, ArenaFor(calculateDistance), old(CurrentBuckets())) &&
                outcome == Ticked(PointStep(old(pointAOccupyTime), CurrentBuckets().atA, occupyTime),
                                  PointStep(old(pointBOccupyTime), CurrentBuckets().atB, occupyTime)) &&
                pointAOccupyTime == outcome.pointA.count && pointBOccupyTime == outcome.pointB.count
    {
      if !KeysPresent() {
        return KeyNotFound;
      }
      ObservePlayers(players, calculateDistance);
      ghost var classified := CurrentBuckets();
      var reportA := AdvancePoint(Occupants(pointAPlayers[TeamA], pointAPlayers[TeamB]), pointAOccupyTime, occupyTime);
      assert reportA == PointStep(old(pointAOccupyTime), classified.atA, occupyTime);
      pointAOccupyTime := reportA.count;
      var reportB := AdvancePoint(Occupants(pointBPlayers[TeamA], pointBPlayers[TeamB]), pointBOccupyTime, occupyTime);
      assert reportB == PointStep(old(pointBOccupyTime), classified.atB, occupyTime);
      pointBOccupyTime := reportB.count;
      outcome := Ticked(reportA, reportB);
      assert CurrentBuckets() == classified;
    }

    /** Elevators are locked while the game mode is on; otherwise the request passes unchanged. */
    method OnInteractingElevator(isAllowed: bool) returns (allowed: bool)
      ensures allowed == (isAllowed && !runGame)
    {
      allowed := isAllowed;
      if runGame {
        allowed := false;
      }
    }

    /**
     * Round restart empties both dictionaries, keys included; the counters,
     * teams, rooms and the on/off flag are kept.
     */
    method OnRoundRestarting()
      requires Valid()
      modifies this`pointAPlayers, this`pointBPlayers
      ensures Valid() && !KeysPresent()
      ensures pointAPlayers == map[] && pointBPlayers == map[]
    {
      pointAPlayers := map[];
      pointBPlayers := map[];
    }

    /**
     * Round restart that empties the four presence sets but keeps the
     * dictionaries' keys, and starts both occupation counters again at 0.
     */
    method ClearBuckets()
      requires Valid()
      modifies this`pointAPlayers, this`pointBPlayers, this`pointAOccupyTime, this`pointBOccupyTime
      ensures Valid() && KeysPresent() && CurrentBuckets() == NoBuckets
      ensures pointAOccupyTime == 0 && pointBOccupyTime == 0
    {
      pointAPlayers := map[TeamA := {}, TeamB := {}];
      pointBPlayers := map[TeamA := {}, TeamB := {}];
      pointAOccupyTime, pointBOccupyTime := 0, 0;
    }
  }

  /**
   * A configured zone without capture-point rooms (Entrance) switches the
   * game mode off for good: the round does not start and elevators are left
   * to their usual rules.
   */
  method EntranceZoneScenario(roomList: seq<Room>, roomDistance: (Room, Room) -> real,
                              players: seq<Player>, isAllowed: bool)
    returns (outcome: MapOutcome, started: bool, allowed: bool)
    ensures outcome == InvalidZone && !started && allowed == isAllowed
  {
    var handlers := new PointTakeover();
    outcome := handlers.OnMapGenerated(Entrance, roomList, roomDistance);
    started := handlers.OnRoundStarted(players);
    allowed := handlers.OnInteractingElevator(isAllowed);
  }

  /**
   * Two rounds on the same handler object, one tick each: after
   * OnRoundRestarting the first tick of the second round stops at the
   * missing "A" key.
   */
  method RestartedRoundTick(roster: seq<Player>, players: seq<Observation>, occupyTime: int, calculateDistance: real)
    returns (firstRound: TickOutcome, secondRound: TickOutcome)
    ensures firstRound.Ticked?
    ensures secondRound == KeyNotFound
  {
    var handlers := new PointTakeover();
    var started := handlers.OnRoundStarted(roster);
    firstRound := handlers.Tick(players, occupyTime, calculateDistance);
    handlers.OnRoundRestarting();
    started := handlers.OnRoundStarted(roster);
    secondRound := handlers.Tick(players, occupyTime, calculateDistance);
  }

  /**
   * The corrected restart on a handler object in any state a previous round
   * may have left: the next round's first tick runs from empty sets and zero
   * counters, whatever that round left behind.
   */
  method ClearedRoundTick(handlers: PointTakeover, roster: seq<Player>, players: seq<Observation>,
                          occupyTime: int, calculateDistance: real)
    returns (started: bool, secondRound: TickOutcome)
    requires handlers.Valid()
    modifies handlers
    ensures started == handlers.runGame
    ensures secondRound.Ticked?
    ensures started ==>
              var arena := Arena(calculateDistance, handlers.takeoverPointA, handlers.takeoverPointB,
                                 SplitTeams(roster).0, SplitTeams(roster).1);
              var b := ClassifyAll(players, arena, NoBuckets);
              secondRound == Ticked(PointStep(0, b.atA, occupyTime), PointStep(0, b.atB, occupyTime))
  {
    handlers.ClearBuckets();
    started := handlers.OnRoundStarted(roster);
    secondRound := handlers.Tick(players, occupyTime, calculateDistance);
  }
}
