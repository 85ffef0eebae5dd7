# PointTakeover capture-point core in Dafny

This project models the scoring core of the PointTakeover game-mode plugin for SCP: Secret Laboratory. In this mode two teams, the Class-D team (team A) and the NTF team (team B), fight over two capture points. The points are the two rooms of the configured zone that lie farthest apart. Once a second, a coroutine ticks. Each tick has two phases:

1. **Presence.** Every player's distance to each point, the room the player stands in and the player's team decide whether the player is added to, removed from or left alone in four persistent sets. These are point A's "A" and "B" sets and point B's "A" and "B" sets.
2. **Counters.** For each point, the sizes of its two sets move that point's signed occupation counter. They also decide who is shown a "capturing" or "contested" hint, and whether a capture broadcast goes out.

The model also covers the event handlers around the tick: map generation, round start, elevator use and round restart.

Modules:

- `Teams` (`teams.dfy`): players, the two teams, and the team split at round start.
- `Rooms` (`rooms.dfy`): zones, room kinds, the two room tables, the room filters, and the farthest-pair search that picks the capture points.
- `Presence` (`presence.dfy`): phase 1 as functions. `Decide` gives one player's new membership. `ClassifyAll` gives the whole pass. Lemmas give each player's outcome after the pass.
- `Scoring` (`scoring.dfy`): phase 2. `PointStep` specifies one point's update. `AdvancePoint` is the loop that performs it. `Run` covers consecutive ticks, and lemmas follow it over many ticks.
- `EventHandlers` (`event_handlers.dfy`): the handler object as a class. Its fields are the two dictionaries, the teams, the candidate rooms, the on/off flag, the two points and the two counters. Its methods are the handlers and the tick.

What the code does, and so what the model does:

- A counter moves by one per present player, not by one per tick.
- A counter is never clamped. It is not reset when the other team takes over alone, and it does not decay while a point is empty.
- There is no steal counter. `OccupyStealTime` and `GameTime` are never read.
- The capture broadcast goes out on every tick at which that team alone is at the point and the counter is at or past the threshold, not only on the first such tick.
- While a player is near one point only, the player's sets at the other point are left as they were. A player who reaches point A's room directly from point B's room is then counted at both points (`Presence.CountedAtBothPoints`).

## Model

| member | source | states |
|---|---|---|
| `Teams.SplitTeams` | EventHandlers.cs:156-158 | The first n/2 listed players are on team A and the rest on team B. Together the teams cover the list. With distinct players the teams are disjoint and have sizes n/2 and n − n/2. |
| `Rooms.TakeoverKinds` | EventHandlers.cs:18-22 | Only LightContainment and HeavyContainment have capture-point rooms. Every other zone, Entrance included, has none. |
| `Rooms.TakeoverCandidates` | EventHandlers.cs:87 | A room is a candidate exactly when it is in the map's room list, lies in the configured zone and has a listed kind. |
| `Rooms.SpawnableRooms` | EventHandlers.cs:176-178 | The lookup fails exactly for a zone without a spawn-room entry. Otherwise a room is spawnable exactly when it has a listed kind and is neither capture point. |
| `Rooms.GetFurthestRooms` | EventHandlers.cs:112-131 | Returns the pair i < j at the greatest distance, taking the first such pair in loop order (strict `>`). It returns no pair exactly when there are fewer than two rooms or no pair is at a positive distance. |
| `Rooms.FirstFurthestUnique` | EventHandlers.cs:118-127 | At most one pair meets the "first farthest pair" condition, so the search result is determined by its input. |
| `Presence.Decide` | EventHandlers.cs:218-304 | A player enters a set only when strictly within the threshold of that point, in its room and on that set's team. On the threshold of either point, or beyond both, the player is in no set. |
| `Presence.ClassifyAllSlots` | EventHandlers.cs:211-305 | After the pass, each observed player's membership is the decision on that player's own observation and previous membership. An unobserved player's membership is unchanged. |
| `Presence.ClassifyAllOrderIrrelevant` | EventHandlers.cs:211 | The pass gives the same sets whatever the order of the player list. |
| `Presence.PassNearAOnly` | EventHandlers.cs:218-239 | Near point A only, in its room: the player joins point A's "A" set if on team A, else its "B" set if on team B, else nothing changes. Not in the room: the player leaves both of point A's sets. Point B's sets are untouched. |
| `Presence.PassNearBOnly` | EventHandlers.cs:240-260 | The mirror image for point B. Point A's sets are untouched. |
| `Presence.PassNearBoth` | EventHandlers.cs:261-295 | Near both points: in room A only point A's sets change. Otherwise, in room B only point B's sets change. Otherwise the player leaves all four sets. |
| `Presence.PassOtherwise` | EventHandlers.cs:297-303 | In every other distance case, a distance equal to the threshold included, the player ends the pass in none of the four sets. |
| `Presence.ClassifyAllRespectsTeams` | EventHandlers.cs:224-232 | If every "A" set holds only team A players and every "B" set only team B players before the pass, the same holds after it. |
| `Presence.CountedAtBothPoints` | EventHandlers.cs:218-260 | A team A player counted at point B who is next observed near A only, in A's room, is in the "A" set of both points. |
| `Scoring.AdvancePoint` | EventHandlers.cs:307-369 | The loop over the present players gives `PointStep`. Team A alone: +1 per player, and a broadcast when the counter is ≥ OccupyTime. Team B alone: −1 per player, and a broadcast when the counter is ≤ −OccupyTime. Both teams: the counter becomes 0 and both teams are told the point is contested. Nobody: nothing changes. The contested branch under the team B case is unreachable. |
| `Scoring.ExclusiveRun` | EventHandlers.cs:308-353 | While one team alone holds a point, tick k leaves the counter at count + (k+1)·(±players), with no bound. The broadcast fires on every tick past the threshold. |
| `Scoring.EmptyRun` | EventHandlers.cs:339-369 | Ticks with nobody at a point leave its counter unchanged and produce no hint and no broadcast. |
| `Scoring.CaptureByOnePlayer` | EventHandlers.cs:313-322 | With OccupyTime 20, one team A player reaches 20 on tick 20, the first broadcast. Tick 21 reaches 21 and broadcasts again. |
| `Scoring.CaptureByFourPlayers` | EventHandlers.cs:313-317 | Four team A players reach 20 in five ticks. |
| `Scoring.NoResetWhenHolderChanges` | EventHandlers.cs:339-348 | After ten ticks of team B alone (−10), one tick of team A alone gives −9, not −1. |
| `Scoring.ContestWipesProgress` | EventHandlers.cs:324-337 | Five ticks of team A alone give 5, with no broadcast. One contested tick then gives 0 and tells both players. |
| `EventHandlers.PointTakeover.constructor` | EventHandlers.cs:30-44 | Both dictionaries have empty "A" and "B" sets, the teams and rooms are empty, the mode is on and both counters are 0. |
| `EventHandlers.AppendNew` | EventHandlers.cs:36 | Adding rooms to the room set the way `HashSet.Add` does keeps the earlier rooms as a prefix, in order. Afterwards the rooms are exactly the old ones plus the added ones, and a duplicate-free list stays duplicate-free. |
| `EventHandlers.AppendNewFresh` | EventHandlers.cs:87-90 | Rooms that are all new and pairwise different are appended exactly in the order given. |
| `EventHandlers.PointTakeover.AddRooms` | EventHandlers.cs:87-90 | The loop leaves the candidate rooms at `AppendNew` of the old rooms and the filtered room list. That fixes the order, and so which room gets which index. |
| `EventHandlers.PointTakeover.OnMapGenerated` | EventHandlers.cs:76-98 | A zone without capture-point rooms turns the mode off and changes nothing else. Otherwise the rooms become `AppendNew` of the old rooms and `TakeoverCandidates`, and the points become the first farthest pair of those rooms. With no such pair both points are null and the handler throws. |
| `EventHandlers.PointTakeover.SetTakeoverPoint` | EventHandlers.cs:100-110 | Point A and point B are the rooms at indices i and j of the first farthest pair. With no pair at a positive distance both stay null, and reading a position throws. |
| `EventHandlers.PointTakeover.OnRoundStarted` | EventHandlers.cs:133-158 | When the mode is off nothing happens. Otherwise the teams are the split of the listed players. |
| `EventHandlers.PointTakeover.JoinPointA` | EventHandlers.cs:222-233 | Only this player's membership of point A's sets changes: "A" if on team A, else "B" if on team B. |
| `EventHandlers.PointTakeover.JoinPointB` | EventHandlers.cs:244-255 | The same for point B. |
| `EventHandlers.PointTakeover.LeavePointA` | EventHandlers.cs:234-238 | Only this player leaves point A's two sets. |
| `EventHandlers.PointTakeover.LeavePointB` | EventHandlers.cs:256-260 | Only this player leaves point B's two sets. |
| `EventHandlers.PointTakeover.ObservePlayer` | EventHandlers.cs:213-304 | One player's in-place updates give `Presence.ClassifyPlayer`. |
| `EventHandlers.PointTakeover.ObservePlayers` | EventHandlers.cs:211-305 | The loop over the player list leaves the sets at `Presence.ClassifyAll`. |
| `EventHandlers.PointTakeover.Tick` | EventHandlers.cs:209-436 | With the keys present, the sets become `ClassifyAll`, and each point's counter and report are `PointStep` of that point's own sets and counter only. With the keys gone, the tick throws before changing anything. |
| `EventHandlers.PointTakeover.OnInteractingElevator` | EventHandlers.cs:477-481 | Elevator use is refused while the mode is on, and passes unchanged otherwise. |
| `EventHandlers.PointTakeover.OnRoundRestarting` | EventHandlers.cs:483-487 | Both dictionaries become empty, their "A" and "B" keys included. The counters and everything else are kept. |
| `EventHandlers.PointTakeover.ClearBuckets` | EventHandlers.cs:483-487 | Corrected restart: the four sets are emptied, the keys stay and both counters start again at 0. |
| `EventHandlers.EntranceZoneScenario` | EventHandlers.cs:80-85 | With Entrance configured, map generation reports the invalid zone, the round does not start and elevators keep their own rule. |
| `EventHandlers.RestartedRoundTick` | EventHandlers.cs:485-486 | On one handler object, a first round's tick runs. After `OnRoundRestarting`, the second round's first tick throws on the missing key. |
| `EventHandlers.ClearedRoundTick` | EventHandlers.cs:483-487 | From any state a previous round left, the corrected restart makes the next tick run. That tick is `PointStep` from counter 0 on the pass over empty sets. |

## Left out

- Coroutine scheduling is not modelled: `Timing.WaitForSeconds`, `CallDelayed`, the `Round.IsEnded` loop condition and the delays in `StartGame`. One loop pass is one `Tick` call. `OnRoundStarted` performs the team split directly.
- Engine side effects are not modelled: broadcast and hint texts and durations, role sets, teleports, items, pickup and ragdoll removal, room colours, `Log` calls and `Round.IsLocked`. Hints and the capture broadcast are kept only as the recipient sets and the team in `PointReport`.
- Positions and `Vector3.Distance` are not modelled. The per-player distances are exact `real` inputs, and room distances are a function parameter. The `float` rounding of distances and thresholds is not modelled.
- `MixColors` and `MakeGradientText` are left out. They are colour interpolation and markup formatting, and the tick does not use them.
- `Respawn`, `OnDying` and `OnDied` are left out. They are timed engine calls.
- The spawn-room shuffle and the teleport in `StartGame` are left out. Only the spawn-room filter is modelled, as `Rooms.SpawnableRooms`.
- The plugin wiring (PointTakeOver.cs) and the settings file (Config.cs) are left out. `OccupyTime`, `CalculateDistance` and the zone are parameters.
- `OccupyStealTime`, `GameTime` and the `_gameTime` field are never read by the code, so they have no counterpart.
- Scoring.AdvancePoint: the counters are unbounded integers. The C# `int` counters would wrap after 2^31 increments, which is far beyond any round.
- The .NET `HashSet<Room>` enumeration order, which `ElementAt(i)` relies on, is taken to be first-insertion order (`EventHandlers.AppendNew`). .NET documents no order, so with rooms removed from the set the engine could differ. This model never removes rooms.
- Room identity is the `Room` value (id, zone, kind). An engine room object destroyed by a later map generation is not modelled.

## Findings

| source | as written | input that shows it | evidently intended | confidence | as-written member | corrected member |
|---|---|---|---|---|---|---|
| EventHandlers.cs:483-487 | `OnRoundRestarting` calls `Clear()` on both dictionaries. This also removes the "A" and "B" keys, and nothing adds them back. It also leaves both occupation counters at their last values, on an object that lives across rounds. | A round, a restart, then the next round's first tick. `_pointAPlayers["A"]` throws `KeyNotFoundException`, so the new round's point timer stops (`EventHandlers.RestartedRoundTick`). With the keys kept, a point left at 25 would broadcast a capture on the next round's first team A tick. | Empty the four sets, keep the keys, and start both counters again at 0 (`EventHandlers.ClearedRoundTick`). | medium, not executed | `EventHandlers.PointTakeover.OnRoundRestarting` | `EventHandlers.PointTakeover.ClearBuckets` |
