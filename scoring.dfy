/**
 * Phase 2 of a tick, run once for point A and once for point B: the sizes of
 * the point's two sets move the point's signed occupation counter, and decide
 * who gets a "capturing" or "contested" hint and whether a capture broadcast
 * goes out. Positive counts are team A's progress, negative ones team B's.
 * The counter is not clamped, not reset when its sign flips and does not
 * decay when the point is empty.
 */
module Scoring {
  import opened Wrappers
  import opened Teams
  import opened Presence

  /**
   * What one point's update produces: the new counter, the players shown the
   * "capturing" hint, the players shown the "contested" hint, and the team
   * named in a capture broadcast, if one goes out.
   */
  datatype PointReport = PointReport(count: int, capturing: set<Player>, contested: set<Player>, captured: Option<Team>)

  /**
   * One point's update. Only team A present: +1 per team A player, broadcast
   * when the counter is at least occupyTime. Only team B present: -1 per
   * team B player, broadcast when the counter is at most -occupyTime. Both
   * present: the counter drops to 0 and everyone present is told the point is
   * contested. Nobody present: nothing happens.
   */
  function PointStep(count: int, p: Occupants, occupyTime: int): PointReport
  {
    if |p.a| > 0 then
      if |p.b| == 0 then
        var c := count + |p.a|;
        PointReport(c, p.a, {}, if c >= occupyTime then Some(TeamA) else None)
      else
        PointReport(0, {}, p.a + p.b, None)
    else if |p.b| > 0 then
      // the "A" set is known to be empty here: the contested case below it cannot happen
      var c := count - |p.b|;
      PointReport(c, p.b, {}, if c <= -occupyTime then Some(TeamB) else None)
    else
      PointReport(count, {}, {}, None)
  }

  /**
   * The per-point update as the tick runs it: a loop over the present
   * team's players that shows each the hint and moves the counter by one.
   */
  method AdvancePoint(p: Occupants, count: int, occupyTime: int) returns (report: PointReport)
    ensures report == PointStep(count, p, occupyTime)
  {
    var counter := count;
    var hinted: set<Player> := {};
    if |p.a| > 0 {
      if |p.b| == 0 {
        var rest := p.a;
        while rest != {}
          invariant rest <= p.a
          invariant hinted == p.a - rest
          invariant counter == count + |hinted|
          decreases |rest|
        {
          var x :| x in rest;
          hinted := hinted + {x};
          counter := counter + 1;
          rest := rest - {x};
        }
        report := PointReport(counter, hinted, {}, if counter >= occupyTime then Some(TeamA) else None);
      } else {
        report := PointReport(0, {}, p.a + p.b, None);
      }
    } else if |p.b| > 0 {
      if |p.a| == 0 {
        var rest := p.b;
        while rest != {}
          invariant rest <= p.b
          invariant hinted == p.b - rest
          invariant counter == count - |hinted|
          decreases |rest|
        {
          var x :| x in rest;
          hinted := hinted + {x};
          counter := counter - 1;
          rest := rest - {x};
        }
        report := PointReport(counter, hinted, {}, if counter <= -occupyTime then Some(TeamB) else None);
      } else {
        assert false;
      }
    } else {
      report := PointReport(counter, {}, {}, None);
    }
  }

  /** The reports of one point over consecutive ticks, given its sets at each tick. */
  function Run(count: int, ps: seq<Occupants>, occupyTime: int): (rs: seq<PointReport>)
    decreases ps
    ensures |rs| == |ps|
    ensures ps != [] ==> rs[0] == PointStep(count, ps[0], occupyTime)
    ensures forall k :: 0 < k < |ps| ==> rs[k] == PointStep(rs[k - 1].count, ps[k], occupyTime)
  {
    if ps == [] then []
    else
      var first := PointStep(count, ps[0], occupyTime);
      var rest := Run(first.count, ps[1..], occupyTime);
      assert forall k :: 1 < k < |ps| ==> rest[k - 1] == PointStep(rest[k - 2].count, ps[k], occupyTime);
      [first] + rest
  }

  /** The same sets at n consecutive ticks. */
  function Repeat(p: Occupants, n: nat): (ps: seq<Occupants>)
    ensures |ps| == n && forall k :: 0 <= k < n ==> ps[k] == p
  {
    seq(n, _ => p)
  }

  /** Exactly one team is present. */
  predicate Exclusive(p: Occupants)
  {
    (|p.a| > 0 && |p.b| == 0) || (|p.a| == 0 && |p.b| > 0)
  }

  /** The signed change per tick when one team holds a point alone: one per present player. */
  function Push(p: Occupants): int
  {
    if |p.a| > 0 then |p.a| else -|p.b|
  }

  /** At the k-th tick of a run with the same sets throughout, the update starts from count + k times the push. */
  lemma {:induction false} SteadyRunAt(count: int, p: Occupants, n: nat, occupyTime: int, k: nat)
    requires k < n
    requires Exclusive(p) || (p.a == {} && p.b == {})
    ensures Run(count, Repeat(p, n), occupyTime)[k] ==
            PointStep(count + k * (if Exclusive(p) then Push(p) else 0), p, occupyTime)
  {
    if k > 0 {
      SteadyRunAt(count, p, n, occupyTime, k - 1);
      assert k * Push(p) == (k - 1) * Push(p) + Push(p);
    }
  }

  /**
   * While one team alone is at a point, the counter moves by the number of
   * its players on every tick, without bound, and the capture broadcast goes
   * out on every tick at which the counter is past the threshold, not just on
   * the first.
   */
  lemma ExclusiveRun(count: int, p: Occupants, n: nat, occupyTime: int)
    requires Exclusive(p)
    ensures var rs := Run(count, Repeat(p, n), occupyTime);
            forall k :: 0 <= k < n ==>
              rs[k].count == count + (k + 1) * Push(p) &&
              rs[k].capturing == (if |p.a| > 0 then p.a else p.b) && rs[k].contested == {} &&
              rs[k].captured == (if |p.a| > 0 then (if rs[k].count >= occupyTime then Some(TeamA) else None)
                                 else (if rs[k].count <= -occupyTime then Some(TeamB) else None))
  {
    forall k | 0 <= k < n
      ensures Run(count, Repeat(p, n), occupyTime)[k].count == count + (k + 1) * Push(p)
    {
      SteadyRunAt(count, p, n, occupyTime, k);
      assert (k + 1) * Push(p) == k * Push(p) + Push(p);
    }
    forall k | 0 <= k < n
      ensures Run(count, Repeat(p, n), occupyTime)[k] == PointStep(count + k * Push(p), p, occupyTime)
    {
      SteadyRunAt(count, p, n, occupyTime, k);
    }
  }

  /** Ticks at which nobody is at the point leave the counter where it was and produce nothing. */
  lemma EmptyRun(count: int, n: nat, occupyTime: int)
    ensures var rs := Run(count, Repeat(NoOccupants, n), occupyTime);
            forall k :: 0 <= k < n ==> rs[k] == PointReport(count, {}, {}, None)
  {
    forall k | 0 <= k < n
      ensures Run(count, Repeat(NoOccupants, n), occupyTime)[k] == PointReport(count, {}, {}, None)
    {
      SteadyRunAt(count, NoOccupants, n, occupyTime, k);
    }
  }

  /**
   * With the default occupation time of 20, one team A player alone at a
   * neutral point brings the counter to 20 on the 20th tick, the first tick
   * with a broadcast; the 21st tick takes it to 21 and broadcasts again.
   */
  lemma CaptureByOnePlayer(player: Player)
    ensures var rs := Run(0, Repeat(Occupants({player}, {}), 21), 20);
            rs[18].count == 19 && rs[18].captured == None &&
            rs[19].count == 20 && rs[19].captured == Some(TeamA) &&
            rs[20].count == 21 && rs[20].captured == Some(TeamA)
  {
    var p := Occupants({player}, {});
    assert |p.a| == 1 && Push(p) == 1;
    ExclusiveRun(0, p, 21, 20);
  }

  /** Four team A players reach the default occupation time in five ticks. */
  lemma CaptureByFourPlayers(p: Occupants)
    requires |p.a| == 4 && p.b == {}
    ensures var rs := Run(0, Repeat(p, 5), 20);
            rs[3].count == 16 && rs[3].captured == None && rs[4].count == 20 && rs[4].captured == Some(TeamA)
  {
    assert Push(p) == 4;
    ExclusiveRun(0, p, 5, 20);
  }

  /**
   * Team B alone for ten ticks takes a neutral point to -10; when team A
   * then arrives alone the counter moves to -9: progress is not reset when
   * the holder changes.
   */
  lemma NoResetWhenHolderChanges(pa: Player, pb: Player)
    ensures var rs := Run(0, Repeat(Occupants({}, {pb}), 10), 20);
            rs[9].count == -10 && PointStep(rs[9].count, Occupants({pa}, {}), 20).count == -9
  {
    var p := Occupants({}, {pb});
    assert |p.b| == 1 && Push(p) == -1;
    ExclusiveRun(0, p, 10, 20);
  }

  /**
   * Team A alone for five ticks, then both teams: the counter is 5, then 0,
   * both teams' players are told the point is contested, and no broadcast
   * went out.
   */
  lemma ContestWipesProgress(pa: Player, pb: Player)
    ensures var rs := Run(0, Repeat(Occupants({pa}, {}), 5), 20);
            var contest := PointStep(rs[4].count, Occupants({pa}, {pb}), 20);
            rs[4].count == 5 && (forall k :: 0 <= k < 5 ==> rs[k].captured == None) &&
            contest.count == 0 && contest.contested == {pa, pb} && contest.captured == None
  {
    var p := Occupants({pa}, {});
    assert |p.a| == 1 && Push(p) == 1;
    ExclusiveRun(0, p, 5, 20);
    forall k | 0 <= k < 5 ensures Run(0, Repeat(p, 5), 20)[k].captured == None {
      assert Run(0, Repeat(p, 5), 20)[k].count == (k + 1) * Push(p);
    }
  }
}
