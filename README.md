# Fantasy-team scoring, leaderboards, wallets and notifications — a Dafny model

This project models the client-side logic of a fantasy-sports admin website:

- **Scoring engine** (`scoring.dfy`, module `Scoring`). Every player on a submitted team is joined by exact name against the match result's `playersPoints`. The first entry with that name gives the base points, and a player with no entry gets 0. The captain's points are doubled and the vice-captain's multiplied by 1.5. The team total is the running sum of the final points. The owner's display name is the `fullName` of the first user whose `String(userId)` matches, or "Unknown User". The scored teams are sorted by total, highest first, and ties keep their input order (`Array.prototype.sort` is stable). Both leaderboard pages share this one engine.
- **Admin leaderboard page** (`leaderboard_admin.dfy`, module `LeaderboardAdmin`). `fetchLeaderboard` rejects a blank match id with "Match ID cannot be empty". It rejects a missing result, or one without `playersPoints`, with "No match results found.". Otherwise it shows the leaderboard.
- **Match-results page** (`match_results.dfy`, module `MatchResults`). `fetchWinners` clears the winners and opens the modal. It then finds the match's result by `String`-normalised `matchId` and shows the leaderboard. When no result matches, or scoring throws, the winners stay empty.
- **Wallet management page** (`wallet_management.dfy`, module `WalletManagement`). The fetched wallets are sorted in place by `walletId`, highest first. A successful block/unblock request sets `isBlocked`, in both lists, for the wallet with the given id, to the opposite of the status the button passed. The table shows the wallets that pass the search text and the status filter.
- **Notification history page** (`notification_history.dfy`, module `NotificationHistory`). A notification is listed when its type equals the selected type ignoring case. Its message or push token must also contain the search text ignoring case. An empty type, or an empty search text, drops that condition.

Shared helpers:
- `wrappers.dfy` (`Option`).
- `text.dfy`. It covers how identifiers are compared: JavaScript's `String(id)` on a number or a string. It also covers `trim()` blankness, ASCII case folding and `includes`.
- `seqs.dfy`. It holds `find` and `filter` over sequences, and the subsequence relation.
- `stable_sort.dfy`. It holds the stable descending sort: a functional specification `SortDesc` and the in-place insertion sort `SortInPlace` proved equal to it.

Design notes:
- Points are exact `real`s, so `* 1.5` is exact.
- Everything fetched over HTTP is a parameter of the method that models the page's handler.
- The React state of the leaderboard, match-results and wallet pages is a class per page. The notification page's filter is a pure function of its inputs.
- The captain and vice-captain factors are two independent `if`s (LeaderboardAdmin.js:43-44), so a name that is both captain and vice-captain gets ×3 (`Scoring.Multiplier`).
- Equal totals stay in input order, because the comparator `b.totalPoints - a.totalPoints` returns 0 for them and `Array.prototype.sort` is stable. `StableSort.StableSortIsUnique` shows this order is fully determined.

## Model

| member | source | states |
|---|---|---|
| Seqs.FindFirst | src/pages/LeaderboardAdmin.js:41 | `find` semantics: the returned index holds an element satisfying the predicate, no earlier element does, and there is no index exactly when no element satisfies it |
| Scoring.BasePointsFromFirstEntry | src/pages/LeaderboardAdmin.js:41-42 | base points are the points of the first `playersPoints` entry whose `playerName` equals the player's name, and 0 when no entry has that name |
| Scoring.Multiplier | src/pages/LeaderboardAdmin.js:43-44 | the factor is 3 for a name that is both captain and vice-captain, 2 for captain only, 1.5 for vice-captain only, 1 otherwise |
| Scoring.FinalPointsIsBaseTimesMultiplier | src/pages/MatchResult.js:64-66 | applying `*= 2` for the captain and then `*= 1.5` for the vice-captain to the base points yields base points × `Multiplier` |
| Scoring.ScoreRosterPointwise | src/pages/LeaderboardAdmin.js:40-46 | the scored roster has one entry per roster player, in roster order, each pairing that player's record with its final points |
| Scoring.ScorePlayersFollowRoster | src/pages/LeaderboardAdmin.js:40-46 | `updatedPlayers` has one player per roster player, in roster order, each keeping its roster record and with points = base × multiplier |
| Scoring.TotalIsWeightedSumOfBasePoints | src/pages/LeaderboardAdmin.js:38-55 | a team's `totalPoints` equals the reference sum, front to back over the roster, of each player's base points times its multiplier |
| Scoring.ScoreRosterDependsOnlyOnCaptaincy | src/pages/LeaderboardAdmin.js:43-44 | a roster scores the same under any two teams with the same captain and vice-captain |
| Scoring.UserName | src/pages/LeaderboardAdmin.js:49-54 | the name is the `fullName` of the first user whose `String(userId)` equals `String(team.userId)`, and "Unknown User" when none does |
| Scoring.UnlistedRosterScoresZero | src/pages/MatchResult.js:61-67 | a team none of whose players appears in `playersPoints` totals 0, whatever its captain and vice-captain |
| Scoring.AddingPlayerAddsItsPoints | src/pages/LeaderboardAdmin.js:38-45 | appending a player to the roster raises the total by exactly that player's final points, so the total is the sum of the final points |
| Scoring.ScoreTeam | src/pages/MatchResult.js:59-79 | the roster loop with its `totalPoints` accumulator, run on one team, returns exactly the specified scored team |
| Scoring.ScoreTeams | src/pages/MatchResult.js:58-79 | `teamsData.map(...)` returns every team scored, in input order |
| Scoring.ScoreAllPointwise | src/pages/MatchResult.js:58-79 | position `i` of the scored teams is team `i` of `teamsData`, scored |
| Scoring.BuildLeaderboard | src/pages/LeaderboardAdmin.js:37-60 | scoring every team into an array, then sorting it in place, gives the leaderboard: sorted non-increasingly by total, a permutation of the scored teams, and for every total value the teams with that total in input order |
| Scoring.LeaderboardIsStableDescending | src/pages/MatchResult.js:81 | the leaderboard is sorted non-increasingly by `totalPoints`, is a permutation of the scored teams, and keeps teams with equal totals in input order |
| Scoring.ExampleCaptainAndViceCaptain | src/pages/LeaderboardAdmin.js:41-45 | with results A = 40 and B = 10, a team [A, B] with captain A and vice-captain B totals 40·2 + 10·1.5 = 95 |
| Scoring.ExampleUnlistedCaptain | src/pages/MatchResult.js:61-67 | with the same results, a team [A, C] whose captain C has no result totals 0·2 + 40 = 40 |
| StableSort.SortDescSorted | src/pages/LeaderboardAdmin.js:60 | the sort's result is non-increasing by key |
| StableSort.SortDescPermutes | src/pages/MatchResult.js:81 | the sort's result is a permutation (same multiset) of its input |
| StableSort.SortDescStable | src/pages/MatchResult.js:81 | for every key value, the elements with that key appear in the result in their input order |
| StableSort.StableSortIsUnique | src/pages/WalletManagement.js:23 | any sequence sorted by key that keeps the input order within each key equals `SortDesc` of the input, so the model's sort gives the same result as any stable sort with this comparator |
| StableSort.InsertInPlace | src/pages/LeaderboardAdmin.js:60 | one insertion step moves `a[i]` into the sorted prefix exactly as the functional insertion does, leaving the rest of the array alone |
| StableSort.SortInPlace | src/pages/LeaderboardAdmin.js:60 | sorting the array in place with comparator `key(b) - key(a)` leaves it equal to `SortDesc` of its old contents |
| LeaderboardAdmin.LeaderboardPage.constructor | src/pages/LeaderboardAdmin.js:6-9 | the page starts with an empty match id, no teams, no spinner and no error |
| LeaderboardAdmin.LeaderboardPage.SetMatchId | src/pages/LeaderboardAdmin.js:76 | typing changes the match id and nothing else |
| LeaderboardAdmin.LeaderboardPage.FetchLeaderboard | src/pages/LeaderboardAdmin.js:11-67 | a blank or whitespace-only id sets "Match ID cannot be empty" and changes nothing else; a missing result or missing `playersPoints` sets "No match results found." and keeps the shown teams; otherwise the error is cleared and the shown teams are the leaderboard; the spinner ends off |
| MatchResults.FindResult | src/pages/MatchResult.js:49-51 | the result used is the first whose `String(matchId)` equals `String(matchId)` of the request, and there is none exactly when no result matches |
| MatchResults.MatchResultsPage.constructor | src/pages/MatchResult.js:6-12 | no match selected, no winners, modal closed |
| MatchResults.MatchResultsPage.CloseWinnerModal | src/pages/MatchResult.js:132 | closing the modal changes only its visibility |
| MatchResults.MatchResultsPage.FetchWinners | src/pages/MatchResult.js:29-85 | the match is selected and the modal opened; with no matching result the winners are empty; when scoring throws (no `playersPoints` and some team has a player) the winners stay empty; otherwise the winners are the leaderboard |
| WalletManagement.ToggleBlocked | src/pages/WalletManagement.js:47-57 | the length is preserved; every wallet whose `walletId` equals the given id gets `isBlocked := !isBlocked` of the passed status, with all other fields unchanged; every other wallet is unchanged |
| WalletManagement.ToggleTwiceRestores | src/pages/WalletManagement.js:141 | when the passed status is the wallet's own (as the button passes it), a second toggle with the new status restores the list |
| WalletManagement.RouteFlipsAfterToggle | src/pages/WalletManagement.js:36 | after a successful toggle the wallet's next request uses the other route ("block" and "unblock" alternate) |
| WalletManagement.FilterWallets | src/pages/WalletManagement.js:68-85 | narrowing by the query and then by the status equals one filter by both conditions; the result is an order-preserving subsequence; a wallet is kept iff it is in the list, its lowercased `walletId` or `userId` string contains the lowercased query (when the query is non-empty), and `isBlocked == (status == "blocked")` (when a status is selected); empty query and status keep every wallet |
| WalletManagement.WalletPage.constructor | src/pages/WalletManagement.js:6-11 | empty lists, loading, no error, empty search and status |
| WalletManagement.WalletPage.FetchWallets | src/pages/WalletManagement.js:17-32 | on success the response array is sorted in place and becomes both lists, and the error is cleared; on failure only "Failed to fetch wallets" is set; loading ends off |
| WalletManagement.WalletPage.HandleBlockUnblock | src/pages/WalletManagement.js:35-65 | the request goes to `.../wallet/unblock/<id>` when the passed status is blocked and `.../wallet/block/<id>` otherwise; a 200 response toggles the wallet in both lists; any other response or an error leaves both lists unchanged |
| WalletManagement.WalletPage.SetSearch | src/pages/WalletManagement.js:97-101 | the search box and the status select change only the query and the status |
| WalletManagement.WalletPage.RefreshFilter | src/pages/WalletManagement.js:68-85 | the effect sets the shown wallets to the wallets passing both conditions and changes nothing else |
| WalletManagement.FetchedWalletsSorted | src/pages/WalletManagement.js:23 | the fetched list is ordered by `walletId`, highest first, and is a permutation of the response |
| WalletManagement.FetchedWalletsStrictlyDescending | src/pages/WalletManagement.js:23 | when the response's wallet ids are distinct, the fetched list is strictly decreasing by `walletId` |
| NotificationHistory.FilteredNotificationsExact | src/pages/NotificationHistory.js:29-38 | the listed notifications are an order-preserving subsequence; a notification is listed iff both its type condition and its search condition hold; with empty type and search all are listed; with a type, every listed type equals it ignoring case; with a search, every listed message or push token contains it ignoring case |
| NotificationHistory.SearchNarrowsTypeSelection | src/pages/NotificationHistory.js:32-35 | the listed notifications are those of the type selection alone, further narrowed by the search condition |
| Text.NumericIdsMatchIffEqual | src/pages/LeaderboardAdmin.js:49 | two numeric ids match under `String` normalisation exactly when the numbers are equal |
| Text.NonCanonicalStringMatchesNoNumber | src/pages/MatchResult.js:50 | a string id with a redundant leading `0` (length > 1) or a leading `+` matches no numeric id under `String` normalisation, e.g. "007" never matches 7 |
| Text.BlankIffTrimEmpty | src/pages/LeaderboardAdmin.js:12 | `trim()` of the id yields the empty string exactly when every character is ECMAScript whitespace or a line terminator, which is the blankness the guard tests |
| Text.ContainsIff | src/pages/WalletManagement.js:74-75 | `includes` holds exactly when the needle occurs at some position of the haystack |
| Seqs.FilterThenFilter | src/pages/WalletManagement.js:69-82 | filtering by one predicate and then another equals filtering once by their conjunction |

## Left out

- HTTP requests (`axios.get/put`, `fetch`) and the `Promise.all` of the admin page. The fetched users, teams, results and wallets, and the PUT's status, are method parameters. A request that fails before any data arrives is not modelled for the leaderboard pages, and neither is the error text chosen from it (`err.response?.data?.message || err.message`).
- React rendering, hooks and re-rendering. Each page's state is a class, `useEffect` re-running the wallet filter is the explicit `RefreshFilter`, and `loading` is tracked only as its final value. The medal and rank display, the modals' markup, `console.error` and `alert` are presentation only.
- IEEE-754 arithmetic. Points are exact reals, so `+=` and `*= 1.5` do not round and there is no NaN.
- `toLowerCase` is ASCII case folding. Unicode and locale-specific case mapping are not modelled.
- `String(x)` of a non-integral number. Identifiers are integers or strings.
- `Date.toLocaleString` formatting of timestamps (NotificationHistory.js:114-123, WalletManagement.js:136-137).
- `fetchMatchResults` (MatchResult.js:18-27) and `fetchNotificationHistory` (NotificationHistory.js:12-26). Each only stores a fetched list.
- The user-teams drill-down `fetchUserTeams` (MatchResult.js:87-100). It is a server fetch with no client-side filtering.
- Payloads that are not shaped as the types say: a team without a `team` array, a `users` response that is not an array, a notification without a `type`. Such input would make the JavaScript throw; the model's types exclude it.
- The roster record's other fields are an opaque `details` map. `{ ...player, points }` is modelled as the record paired with its final points, so a roster field that was itself called `points` is not shown being overwritten.
- The sort algorithm. JavaScript engines use their own (stable) algorithm and the model uses insertion sort. `StableSort.StableSortIsUnique` shows the two give the same result.
- `MatchResults.ScoringThrows` condenses the `TypeError` from scoring against a result without `playersPoints`. The error occurs only when some team has a player. It is raised after `fetchWinners` has already selected the match, cleared the winners and opened the modal, and before `setWinners` (MatchResult.js:81), so the winners stay empty; the exact point where it is raised within the scoring is not modelled.
- Interleaving of calls. `fetchWinners` and `fetchLeaderboard` await their requests in turn, and nothing stops an older call's `setWinners` or `setTeams` from landing after a newer call's. The model treats each call as atomic.
- JavaScript number width. Ids arrive as IEEE-754 doubles: integers above 2^53 are not exact, and `String(1e21)` is "1e+21". `Text.IntToString` renders every integer in full decimal digits, so numeric match ids, user ids and wallet ids are taken to be safe integers (|n| < 2^53).
- `AdminRegister.js`, `NotificationSender.js` and `Support.js`: form handling, a network POST and static markup.
