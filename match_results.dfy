/**
 * The match-results page: `fetchWinners(matchId)` clears the winners, opens the
 * winners modal, looks the match up in the list of all results, and shows the
 * scored teams, highest total first. A missing result, or an exception while
 * scoring, leaves the winners empty.
 */
module MatchResults {
  import opened Wrappers
  import opened Text
  import opened Seqs
  import opened Scoring

  function ForMatch(matchId: Id): MatchResult -> bool
  {
    (r: MatchResult) => SameId(r.matchId, matchId)
  }

  /** `matchResults[i]` is the first result whose id matches `matchId` under `String` normalisation. */
  predicate FirstResultForMatch(matchResults: seq<MatchResult>, matchId: Id, i: int)
  {
    0 <= i < |matchResults| && SameId(matchResults[i].matchId, matchId) &&
    forall j :: 0 <= j < i ==> !SameId(matchResults[j].matchId, matchId)
  }

  /** `matchResults.find(r => String(r.matchId) === String(matchId))` */
  function FindResult(matchResults: seq<MatchResult>, matchId: Id): (r: Option<MatchResult>)
    ensures r.None? <==> forall i :: 0 <= i < |matchResults| ==> !SameId(matchResults[i].matchId, matchId)
    ensures r.Some? ==> exists i :: FirstResultForMatch(matchResults, matchId, i) && r.value == matchResults[i]
  {
    match FindFirst(matchResults, ForMatch(matchId))
    case Some(i) => Some(matchResults[i])
    case None => None
  }

  /**
   * Scoring a player calls `matchResult.playersPoints.find`, which throws when the
   * result lacks `playersPoints`; that happens as soon as some team has a player.
   */
  predicate ScoringThrows(matchResult: MatchResult, teamsData: seq<Team>)
  {
    matchResult.playersPoints.None? && exists i :: 0 <= i < |teamsData| && |teamsData[i].team| > 0
  }

  /** The state `fetchWinners` touches. */
  class MatchResultsPage {
    var selectedMatchId: Option<Id>
    var winners: seq<ScoredTeam>
    var showWinnerModal: bool

    constructor ()
      ensures selectedMatchId == None && winners == [] && !showWinnerModal
    {
      selectedMatchId, winners, showWinnerModal := None, [], false;
    }

    /** The winners modal's close button. */
    method CloseWinnerModal()
      modifies this
      ensures !showWinnerModal && selectedMatchId == old(selectedMatchId) && winners == old(winners)
    {
      showWinnerModal := false;
    }

    /**
     * `fetchWinners(matchId)` once the users, the match's teams and all match
     * results have been fetched. Without a matching result, or when scoring throws,
     * the winners stay the empty list set at the start.
     */
    method FetchWinners(matchId: Id, users: seq<User>, teamsData: seq<Team>, matchResults: seq<MatchResult>)
      modifies this
      ensures selectedMatchId == Some(matchId) && showWinnerModal
      ensures FindResult(matchResults, matchId).None? ==> winners == []
      ensures FindResult(matchResults, matchId).Some? ==>
        var result := FindResult(matchResults, matchId).value;
        if ScoringThrows(result, teamsData) then winners == []
        else winners == Leaderboard(teamsData, result.playersPoints.GetOr([]), users)
    {
      selectedMatchId := Some(matchId);
      winners := [];
      showWinnerModal := true;

      var found := FindResult(matchResults, matchId);
      if found.None? {
        return;
      }
      var result := found.value;
      if ScoringThrows(result, teamsData) {
        return;
      }
      // without `playersPoints` no roster is non-empty, so no lookup is ever made
      var board := BuildLeaderboard(teamsData, result.playersPoints.GetOr([]), users);
      winners := board;
    }
  }
}
