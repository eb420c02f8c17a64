/**
 * The scoring and leaderboard engine shared by the admin leaderboard page and
 * the match-results page: every roster player is joined by exact name against
 * the match's player points, captain and vice-captain multipliers are applied,
 * the team total is accumulated, the owner's name is resolved, and the teams
 * are sorted by total, highest first, ties in input order.
 */
module Scoring {
  import opened Wrappers
  import opened Text
  import opened Seqs
  import opened StableSort

  /** One entry of a match result's `playersPoints`. */
  datatype PlayerResult = PlayerResult(playerName: string, points: real)

  /** A declared match result; `playersPoints` is `None` when the payload lacks the field. */
  datatype MatchResult = MatchResult(matchId: Id, playersPoints: Option<seq<PlayerResult>>)

  /** A selected player; `details` holds the roster record's fields other than `name`. */
  datatype RosterPlayer = RosterPlayer(name: string, details: map<string, string>)

  /** A submitted fantasy team; `team` is the roster in submission order. */
  datatype Team = Team(teamId: Id, userId: Id, captain: string, viceCaptain: string, team: seq<RosterPlayer>)

  /** A directory entry. */
  datatype User = User(userId: Id, fullName: string)

  /** `{ ...player, points }`: the roster record with its final points. */
  datatype ScoredPlayer = ScoredPlayer(player: RosterPlayer, points: real)

  datatype ScoredTeam = ScoredTeam(teamId: Id, userId: Id, userName: string, totalPoints: real, players: seq<ScoredPlayer>)

  const UnknownUser := "Unknown User"

  function NamedPlayer(name: string): PlayerResult -> bool
  {
    (r: PlayerResult) => r.playerName == name
  }

  /** `pp[i]` is the first result entry named `name`. */
  predicate FirstResultFor(pp: seq<PlayerResult>, name: string, i: int)
  {
    0 <= i < |pp| && pp[i].playerName == name && forall j :: 0 <= j < i ==> pp[j].playerName != name
  }

  /** `playersPoints.find(p => p.playerName === name)`, then its points or 0. */
  function BasePoints(pp: seq<PlayerResult>, name: string): real
  {
    match FindFirst(pp, NamedPlayer(name))
    case Some(i) => pp[i].points
    case None => 0.0
  }

  /** Base points come from the first entry named `name`, and are 0 when no entry has that name. */
  lemma BasePointsFromFirstEntry(pp: seq<PlayerResult>, name: string)
    ensures (forall i :: 0 <= i < |pp| ==> pp[i].playerName != name) ==> BasePoints(pp, name) == 0.0
    ensures forall i :: FirstResultFor(pp, name, i) ==> BasePoints(pp, name) == pp[i].points
  {
    // follows from the contract of FindFirst
  }

  /**
   * The factor a player's base points are multiplied by. The captain and the
   * vice-captain factors are applied independently, so they compound.
   */
  function Multiplier(team: Team, name: string): (m: real)
    ensures name == team.captain && name == team.viceCaptain ==> m == 3.0
    ensures name == team.captain && name != team.viceCaptain ==> m == 2.0
    ensures name != team.captain && name == team.viceCaptain ==> m == 1.5
    ensures name != team.captain && name != team.viceCaptain ==> m == 1.0
  {
    (if name == team.captain then 2.0 else 1.0) * (if name == team.viceCaptain then 1.5 else 1.0)
  }

  /**
   * A roster player's final points: the base points, doubled for the captain,
   * then multiplied by 1.5 for the vice-captain.
   */
  function FinalPoints(team: Team, pp: seq<PlayerResult>, p: RosterPlayer): real
  {
    var base := BasePoints(pp, p.name);
    var c := if p.name == team.captain then base * 2.0 else base;
    if p.name == team.viceCaptain then c * 1.5 else c
  }

  /** The two factors applied in turn amount to the base points times `Multiplier`. */
  lemma FinalPointsIsBaseTimesMultiplier(team: Team, pp: seq<PlayerResult>, p: RosterPlayer)
    ensures FinalPoints(team, pp, p) == BasePoints(pp, p.name) * Multiplier(team, p.name)
  {
    var base := BasePoints(pp, p.name);
    if p.name == team.captain && p.name == team.viceCaptain {
      assert FinalPoints(team, pp, p) == base * 2.0 * 1.5 == base * 3.0;
    }
  }

  /** The players of `roster`, each with its final points under the team's captaincy, in roster order. */
  function ScoreRoster(team: Team, pp: seq<PlayerResult>, roster: seq<RosterPlayer>): (r: seq<ScoredPlayer>)
    ensures |r| == |roster|
  {
    if |roster| == 0 then []
    else
      var p := roster[|roster| - 1];
      ScoreRoster(team, pp, roster[..|roster| - 1]) + [ScoredPlayer(p, FinalPoints(team, pp, p))]
  }

  /** Every roster player of the team with its final points, in roster order. */
  function ScorePlayers(team: Team, pp: seq<PlayerResult>): seq<ScoredPlayer>
  {
    ScoreRoster(team, pp, team.team)
  }

  /** The sum of the players' points, accumulated left to right as `totalPoints += points`. */
  function SumPoints(ps: seq<ScoredPlayer>): real
  {
    if |ps| == 0 then 0.0 else SumPoints(ps[..|ps| - 1]) + ps[|ps| - 1].points
  }

  function SameUser(id: Id): User -> bool
  {
    (u: User) => SameId(u.userId, id)
  }

  /** `users[i]` is the first directory entry whose id matches `id` under `String` normalisation. */
  predicate FirstUserFor(users: seq<User>, id: Id, i: int)
  {
    0 <= i < |users| && SameId(users[i].userId, id) && forall j :: 0 <= j < i ==> !SameId(users[j].userId, id)
  }

  /** The `fullName` of the first matching user, else "Unknown User". */
  function UserName(users: seq<User>, id: Id): (r: string)
    ensures (forall i :: 0 <= i < |users| ==> !SameId(users[i].userId, id)) ==> r == UnknownUser
    ensures forall i :: FirstUserFor(users, id, i) ==> r == users[i].fullName
  {
    match FindFirst(users, SameUser(id))
    case Some(i) => users[i].fullName
    case None => UnknownUser
  }

  /** The record the pages build for one team. */
  function Scored(team: Team, pp: seq<PlayerResult>, users: seq<User>): ScoredTeam
  {
    var players := ScorePlayers(team, pp);
    ScoredTeam(team.teamId, team.userId, UserName(users, team.userId), SumPoints(players), players)
  }

  function TotalPoints(t: ScoredTeam): real
  {
    t.totalPoints
  }

  /** `teamsData.map(...)`: every team scored, in input order. */
  function ScoreAll(teams: seq<Team>, pp: seq<PlayerResult>, users: seq<User>): (r: seq<ScoredTeam>)
    ensures |r| == |teams|
  {
    if |teams| == 0 then [] else ScoreAll(teams[..|teams| - 1], pp, users) + [Scored(teams[|teams| - 1], pp, users)]
  }

  /** Position `i` of the scored teams is team `i`, scored. */
  lemma {:induction false} ScoreAllPointwise(teams: seq<Team>, pp: seq<PlayerResult>, users: seq<User>)
    ensures forall i :: 0 <= i < |teams| ==> ScoreAll(teams, pp, users)[i] == Scored(teams[i], pp, users)
  {
    if |teams| > 0 {
      var init := teams[..|teams| - 1];
      var scored := ScoreAll(teams, pp, users);
      ScoreAllPointwise(init, pp, users);
      assert scored == ScoreAll(init, pp, users) + [Scored(teams[|teams| - 1], pp, users)];
      forall i | 0 <= i < |teams| - 1 ensures scored[i] == Scored(teams[i], pp, users) {
        assert scored[i] == ScoreAll(init, pp, users)[i] && init[i] == teams[i];
      }
    }
  }

  /** The leaderboard: the scored teams, stably sorted by total points, highest first. */
  function Leaderboard(teams: seq<Team>, pp: seq<PlayerResult>, users: seq<User>): seq<ScoredTeam>
  {
    SortDesc(ScoreAll(teams, pp, users), TotalPoints)
  }

  /** Position `i` of the scored roster is roster player `i` with its final points. */
  lemma {:induction false} ScoreRosterPointwise(team: Team, pp: seq<PlayerResult>, roster: seq<RosterPlayer>)
    ensures |ScoreRoster(team, pp, roster)| == |roster|
    ensures forall i :: 0 <= i < |roster| ==>
      ScoreRoster(team, pp, roster)[i] == ScoredPlayer(roster[i], FinalPoints(team, pp, roster[i]))
  {
    if |roster| > 0 {
      ScoreRosterPointwise(team, pp, roster[..|roster| - 1]);
    }
  }

  /**
   * Each emitted player is the roster player at the same position, with points
   * equal to its base points times its multiplier.
   */
  lemma ScorePlayersFollowRoster(team: Team, pp: seq<PlayerResult>)
    ensures |ScorePlayers(team, pp)| == |team.team|
    ensures forall i :: 0 <= i < |team.team| ==> ScorePlayers(team, pp)[i].player == team.team[i]
    ensures forall i :: 0 <= i < |team.team| ==>
      ScorePlayers(team, pp)[i].points == BasePoints(pp, team.team[i].name) * Multiplier(team, team.team[i].name)
  {
    ScoreRosterPointwise(team, pp, team.team);
    forall i | 0 <= i < |team.team|
      ensures ScorePlayers(team, pp)[i].points == BasePoints(pp, team.team[i].name) * Multiplier(team, team.team[i].name)
    {
      FinalPointsIsBaseTimesMultiplier(team, pp, team.team[i]);
    }
  }

  /** Multiplier times base points: a roster player's weight in the reference total. */
  function Weight(team: Team, pp: seq<PlayerResult>): RosterPlayer -> real
  {
    (p: RosterPlayer) => BasePoints(pp, p.name) * Multiplier(team, p.name)
  }

  lemma FinalPointsIsWeight(team: Team, pp: seq<PlayerResult>, p: RosterPlayer)
    ensures FinalPoints(team, pp, p) == Weight(team, pp)(p)
  {
    FinalPointsIsBaseTimesMultiplier(team, pp, p);
  }

  /** The sum of `w` over the roster, front to back. */
  function SumOver(roster: seq<RosterPlayer>, w: RosterPlayer -> real): real
  {
    if |roster| == 0 then 0.0 else w(roster[0]) + SumOver(roster[1..], w)
  }

  /** Reference total: every roster player's base points times its multiplier, summed. */
  function RosterTotal(team: Team, pp: seq<PlayerResult>, roster: seq<RosterPlayer>): real
  {
    SumOver(roster, Weight(team, pp))
  }

  lemma {:induction false} SumOverAppend(roster: seq<RosterPlayer>, p: RosterPlayer, w: RosterPlayer -> real)
    ensures SumOver(roster + [p], w) == SumOver(roster, w) + w(p)
    decreases |roster|
  {
    if |roster| == 0 {
      assert roster + [p] == [p] && [p][1..] == [];
    } else {
      assert (roster + [p])[0] == roster[0] && (roster + [p])[1..] == roster[1..] + [p];
      SumOverAppend(roster[1..], p, w);
    }
  }

  lemma {:induction false} ScoreRosterSumsToRosterTotal(team: Team, pp: seq<PlayerResult>, roster: seq<RosterPlayer>)
    ensures SumPoints(ScoreRoster(team, pp, roster)) == RosterTotal(team, pp, roster)
  {
    if |roster| > 0 {
      var init, p := roster[..|roster| - 1], roster[|roster| - 1];
      var w := Weight(team, pp);
      var head := ScoreRoster(team, pp, init);
      var last := ScoredPlayer(p, FinalPoints(team, pp, p));
      var scored := ScoreRoster(team, pp, roster);
      assert scored == head + [last];
      assert scored[..|scored| - 1] == head;
      assert SumPoints(scored) == SumPoints(head) + last.points;
      ScoreRosterSumsToRosterTotal(team, pp, init);
      FinalPointsIsWeight(team, pp, p);
      assert init + [p] == roster;
      SumOverAppend(init, p, w);
    }
  }

  /** A team's total is the sum over its roster of multiplier times base points. */
  lemma TotalIsWeightedSumOfBasePoints(team: Team, pp: seq<PlayerResult>, users: seq<User>)
    ensures Scored(team, pp, users).totalPoints == RosterTotal(team, pp, team.team)
  {
    ScoreRosterSumsToRosterTotal(team, pp, team.team);
  }

  lemma {:induction false} SumPointsOfZeros(ps: seq<ScoredPlayer>)
    requires forall i :: 0 <= i < |ps| ==> ps[i].points == 0.0
    ensures SumPoints(ps) == 0.0
  {
    if |ps| > 0 {
      SumPointsOfZeros(ps[..|ps| - 1]);
    }
  }

  /** A team none of whose players appears in the results scores 0, whoever is captain. */
  lemma UnlistedRosterScoresZero(team: Team, pp: seq<PlayerResult>, users: seq<User>)
    requires forall i, j :: 0 <= i < |team.team| && 0 <= j < |pp| ==> pp[j].playerName != team.team[i].name
    ensures Scored(team, pp, users).totalPoints == 0.0
  {
    ScoreRosterPointwise(team, pp, team.team);
    forall i | 0 <= i < |team.team| ensures FinalPoints(team, pp, team.team[i]) == 0.0 {
      BasePointsFromFirstEntry(pp, team.team[i].name);
    }
    SumPointsOfZeros(ScorePlayers(team, pp));
  }

  lemma {:induction false} SumPointsAppend(ps: seq<ScoredPlayer>, q: seq<ScoredPlayer>)
    ensures SumPoints(ps + q) == SumPoints(ps) + SumPoints(q)
    decreases |q|
  {
    if |q| > 0 {
      assert (ps + q)[..|ps + q| - 1] == ps + q[..|q| - 1];
      SumPointsAppend(ps, q[..|q| - 1]);
    } else {
      assert ps + q == ps;
    }
  }

  /** Scoring a roster depends on the team only through its captain and vice-captain. */
  lemma {:induction false} ScoreRosterDependsOnlyOnCaptaincy(t1: Team, t2: Team, pp: seq<PlayerResult>, roster: seq<RosterPlayer>)
    requires t1.captain == t2.captain && t1.viceCaptain == t2.viceCaptain
    ensures ScoreRoster(t1, pp, roster) == ScoreRoster(t2, pp, roster)
  {
    if |roster| > 0 {
      ScoreRosterDependsOnlyOnCaptaincy(t1, t2, pp, roster[..|roster| - 1]);
    }
  }

  /** Adding a player to the roster adds exactly that player's final points to the total. */
  lemma AddingPlayerAddsItsPoints(team: Team, p: RosterPlayer, pp: seq<PlayerResult>, users: seq<User>)
    ensures var grown := team.(team := team.team + [p]);
      Scored(grown, pp, users).totalPoints == Scored(team, pp, users).totalPoints + FinalPoints(team, pp, p)
  {
    var grown := team.(team := team.team + [p]);
    var added := ScoredPlayer(p, FinalPoints(team, pp, p));
    assert grown.team[..|grown.team| - 1] == team.team;
    ScoreRosterDependsOnlyOnCaptaincy(grown, team, pp, team.team);
    assert ScorePlayers(grown, pp) == ScorePlayers(team, pp) + [added];
    SumPointsAppend(ScorePlayers(team, pp), [added]);
    assert [added][..0] == [];
  }

  /** The leaderboard is sorted, a permutation of the scored teams, and stable for equal totals. */
  lemma LeaderboardIsStableDescending(teams: seq<Team>, pp: seq<PlayerResult>, users: seq<User>)
    ensures SortedDesc(Leaderboard(teams, pp, users), TotalPoints)
    ensures multiset(Leaderboard(teams, pp, users)) == multiset(ScoreAll(teams, pp, users))
    ensures forall k :: Filter(Leaderboard(teams, pp, users), HasKey(TotalPoints, k))
                     == Filter(ScoreAll(teams, pp, users), HasKey(TotalPoints, k))
  {
    var scored := ScoreAll(teams, pp, users);
    SortDescSorted(scored, TotalPoints);
    SortDescPermutes(scored, TotalPoints);
    forall k ensures Filter(SortDesc(scored, TotalPoints), HasKey(TotalPoints, k)) == Filter(scored, HasKey(TotalPoints, k)) {
      SortDescStable(scored, TotalPoints, k);
    }
  }

  /** Worked example: captain on 40 points and vice-captain on 10 points score 80 + 15 = 95. */
  lemma ExampleCaptainAndViceCaptain()
    ensures var pp := [PlayerResult("Player A", 40.0), PlayerResult("Player B", 10.0)];
      var team := Team(Str("t1"), Str("u1"), "Player A", "Player B",
                       [RosterPlayer("Player A", map[]), RosterPlayer("Player B", map[])]);
      Scored(team, pp, []).totalPoints == 95.0
  {
    var pp := [PlayerResult("Player A", 40.0), PlayerResult("Player B", 10.0)];
    var team := Team(Str("t1"), Str("u1"), "Player A", "Player B",
                     [RosterPlayer("Player A", map[]), RosterPlayer("Player B", map[])]);
    BasePointsFromFirstEntry(pp, "Player A");
    BasePointsFromFirstEntry(pp, "Player B");
    assert FirstResultFor(pp, "Player A", 0) && FirstResultFor(pp, "Player B", 1);
    var ps := ScorePlayers(team, pp);
    assert ps[0].points == 80.0 && ps[1].points == 15.0;
    assert ps[..1][..0] == [];
    assert SumPoints(ps[..1]) == 80.0;
  }

  /** Worked example: an unlisted captain contributes 0 * 2, the other player its plain 40. */
  lemma ExampleUnlistedCaptain()
    ensures var pp := [PlayerResult("Player A", 40.0), PlayerResult("Player B", 10.0)];
      var team := Team(Str("t2"), Str("u2"), "Player C", "Player B",
                       [RosterPlayer("Player A", map[]), RosterPlayer("Player C", map[])]);
      Scored(team, pp, []).totalPoints == 40.0
  {
    var pp := [PlayerResult("Player A", 40.0), PlayerResult("Player B", 10.0)];
    var team := Team(Str("t2"), Str("u2"), "Player C", "Player B",
                     [RosterPlayer("Player A", map[]), RosterPlayer("Player C", map[])]);
    BasePointsFromFirstEntry(pp, "Player A");
    BasePointsFromFirstEntry(pp, "Player C");
    assert FirstResultFor(pp, "Player A", 0);
    var ps := ScorePlayers(team, pp);
    assert ps[0].points == 40.0 && ps[1].points == 0.0;
    assert ps[..1][..0] == [];
    assert SumPoints(ps[..1]) == 40.0;
  }

  /** Scores one team the way the pages' roster loop does, accumulating into `totalPoints`. */
  method ScoreTeam(team: Team, pp: seq<PlayerResult>, users: seq<User>) returns (st: ScoredTeam)
    ensures st == Scored(team, pp, users)
  {
    var totalPoints := 0.0;
    var updatedPlayers: seq<ScoredPlayer> := [];
    for i := 0 to |team.team|
      invariant updatedPlayers == ScoreRoster(team, pp, team.team[..i])
      invariant totalPoints == SumPoints(updatedPlayers)
    {
      var player := team.team[i];
      var points := BasePoints(pp, player.name);
      if player.name == team.captain {
        points := points * 2.0;
      }
      if player.name == team.viceCaptain {
        points := points * 1.5;
      }
      assert points == FinalPoints(team, pp, player);
      assert team.team[..i + 1][..i] == team.team[..i];
      assert ScoreRoster(team, pp, team.team[..i + 1]) == ScoreRoster(team, pp, team.team[..i]) + [ScoredPlayer(player, points)];
      totalPoints := totalPoints + points;
      ghost var before := updatedPlayers;
      updatedPlayers := updatedPlayers + [ScoredPlayer(player, points)];
      assert updatedPlayers[..|updatedPlayers| - 1] == before;
    }
    assert team.team[..|team.team|] == team.team;
    st := ScoredTeam(team.teamId, team.userId, UserName(users, team.userId), totalPoints, updatedPlayers);
  }

  /** `teamsData.map(...)`: every team scored, in input order. */
  method ScoreTeams(teams: seq<Team>, pp: seq<PlayerResult>, users: seq<User>) returns (calculatedData: seq<ScoredTeam>)
    ensures calculatedData == ScoreAll(teams, pp, users)
  {
    calculatedData := [];
    for i := 0 to |teams|
      invariant calculatedData == ScoreAll(teams[..i], pp, users)
    {
      var st := ScoreTeam(teams[i], pp, users);
      assert teams[..i + 1][..i] == teams[..i];
      assert ScoreAll(teams[..i + 1], pp, users) == ScoreAll(teams[..i], pp, users) + [Scored(teams[i], pp, users)];
      calculatedData := calculatedData + [st];
    }
    assert teams[..|teams|] == teams;
  }

  /**
   * Scores every team, then sorts the array of scored teams in place by total
   * points, highest first; equal totals keep the input order.
   */
  method BuildLeaderboard(teams: seq<Team>, pp: seq<PlayerResult>, users: seq<User>) returns (board: seq<ScoredTeam>)
    ensures board == Leaderboard(teams, pp, users)
    ensures SortedDesc(board, TotalPoints)
    ensures multiset(board) == multiset(ScoreAll(teams, pp, users))
    ensures forall k :: Filter(board, HasKey(TotalPoints, k)) == Filter(ScoreAll(teams, pp, users), HasKey(TotalPoints, k))
  {
    var calculatedData := ScoreTeams(teams, pp, users);
    var calculated := new ScoredTeam[|teams|](i requires 0 <= i < |teams| => calculatedData[i]);
    assert calculated[..] == calculatedData;
    SortInPlace(calculated, TotalPoints);
    board := calculated[..];
    LeaderboardIsStableDescending(teams, pp, users);
  }
}
