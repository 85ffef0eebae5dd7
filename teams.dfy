/**
 * Players and the two teams of a round (the Class-D team and the NTF team).
 * Team membership is fixed when the round starts: the first half of the
 * connected players form team A, the rest form team B.
 */
module Teams {

  /** The identity of one connected player. */
  type Player = nat

  /** The two teams; they are also the keys "A" and "B" of a point's dictionary. */
  datatype Team = TeamA | TeamB

  /** The elements of a sequence, as a set (LINQ's ToHashSet). */
  function Elements<T>(s: seq<T>): set<T>
  {
    set x | x in s
  }

  /** No element occurs twice (the engine's player list holds each player once). */
  predicate Distinct<T(==)>(s: seq<T>)
  {
    forall i, j :: 0 <= i < j < |s| ==> s[i] != s[j]
  }

  lemma {:induction false} DistinctElementsCount<T>(s: seq<T>)
    requires Distinct(s)
    ensures |Elements(s)| == |s|
  {
    if s != [] {
      assert Distinct(s[1..]) by {
        forall i, j | 0 <= i < j < |s[1..]| ensures s[1..][i] != s[1..][j] {
          assert s[1..][i] == s[i + 1] && s[1..][j] == s[j + 1];
        }
      }
      DistinctElementsCount(s[1..]);
      assert Elements(s) == {s[0]} + Elements(s[1..]);
      assert s[0] !in Elements(s[1..]) by {
        forall k | 0 <= k < |s[1..]| ensures s[1..][k] != s[0] {
          assert s[1..][k] == s[k + 1];
        }
      }
    }
  }

  lemma SplitHalves<T>(s: seq<T>, k: nat)
    requires k <= |s|
    ensures Elements(s[..k]) + Elements(s[k..]) == Elements(s)
    ensures Distinct(s) ==> Elements(s[..k]) !! Elements(s[k..])
    ensures Distinct(s) ==> |Elements(s[..k])| == k && |Elements(s[k..])| == |s| - k
  {
    assert s == s[..k] + s[k..];
    if Distinct(s) {
      assert Distinct(s[..k]) by {
        forall i, j | 0 <= i < j < k ensures s[..k][i] != s[..k][j] { }
      }
      assert Distinct(s[k..]) by {
        forall i, j | 0 <= i < j < |s| - k ensures s[k..][i] != s[k..][j] {
          assert s[k..][i] == s[k + i] && s[k..][j] == s[k + j];
        }
      }
      DistinctElementsCount(s[..k]);
      DistinctElementsCount(s[k..]);
    }
  }

  /**
   * The team split at round start: team A takes the first n/2 listed players
   * (integer division), team B the remaining n - n/2.
   */
  function SplitTeams(players: seq<Player>): (teams: (set<Player>, set<Player>))
    ensures forall k :: 0 <= k < |players| / 2 ==> players[k] in teams.0
    ensures forall k :: |players| / 2 <= k < |players| ==> players[k] in teams.1
    ensures teams.0 + teams.1 == Elements(players)
    ensures Distinct(players) ==> teams.0 !! teams.1
    ensures Distinct(players) ==>
              |teams.0| == |players| / 2 && |teams.1| == |players| - |players| / 2
  {
    var half := |players| / 2;
    SplitHalves(players, half);
    (Elements(players[..half]), Elements(players[half..]))
  }
}
