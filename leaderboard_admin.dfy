/**
 * The admin leaderboard page: `fetchLeaderboard` rejects a blank match id,
 * fetches users, the match's teams and its result, rejects a result without
 * `playersPoints`, and otherwise shows the scored teams, highest total first.
 */
module LeaderboardAdmin {
  import opened Wrappers
  import opened Text
  import opened Scoring

  const EmptyMatchIdError := "Match ID cannot be empty"
  const NoResultsError := "No match results found."

  /** `!matchResult || !matchResult.playersPoints` fails; an empty array is still a result. */
  predicate HasPlayersPoints(matchResult: Option<MatchResult>)
  {
    matchResult.Some? && matchResult.value.playersPoints.Some?
  }

  /** The page's state: the typed match id, the shown leaderboard, the spinner and the error line. */
  class LeaderboardPage {
    var matchId: string
    var teams: seq<ScoredTeam>
    var loading: bool
    var error: Option<string>

    constructor ()
      ensures matchId == "" && teams == [] && !loading && error == None
    {
      matchId, teams, loading, error := "", [], false, None;
    }

    /** The input field's `onChange`. */
    method SetMatchId(id: string)
      modifies this
      ensures matchId == id && teams == old(teams) && loading == old(loading) && error == old(error)
    {
      matchId := id;
    }

    /**
     * `fetchLeaderboard` once the three requests for `matchId` have answered with
     * `users`, `teamsData` and `matchResult`: a blank id only sets its error; a
     * missing result sets "No match results found." and leaves the shown teams as
     * they were; otherwise the error is cleared and the leaderboard is shown.
     */
    method FetchLeaderboard(users: seq<User>, teamsData: seq<Team>, matchResult: Option<MatchResult>)
      modifies this
      ensures matchId == old(matchId)
      ensures IsBlank(matchId) ==>
        error == Some(EmptyMatchIdError) && teams == old(teams) && loading == old(loading)
      ensures !IsBlank(matchId) ==> !loading
      ensures !IsBlank(matchId) && !HasPlayersPoints(matchResult) ==>
        error == Some(NoResultsError) && teams == old(teams)
      ensures !IsBlank(matchId) && HasPlayersPoints(matchResult) ==>
        error == None && teams == Leaderboard(teamsData, matchResult.value.playersPoints.value, users)
    {
      if IsBlank(matchId) {
        error := Some(EmptyMatchIdError);
        return;
      }
      loading := true;
      error := None;
      if !HasPlayersPoints(matchResult) {
        error := Some(NoResultsError);
      } else {
        var board := BuildLeaderboard(teamsData, matchResult.value.playersPoints.value, users);
        teams := board;
      }
      loading := false;
    }
  }
}
