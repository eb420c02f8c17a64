/**
 * The wallet management page: the fetched wallets sorted by wallet id, highest
 * first; a block/unblock request whose success flips the wallet's status locally
 * in both lists; and the search and status filter behind the table.
 */
module WalletManagement {
  import opened Wrappers
  import opened Text
  import opened Seqs
  import opened StableSort

  /** A wallet record; `walletId` is numeric (the sort subtracts ids). */
  datatype Wallet = Wallet(walletId: int, userId: Id, balance: real, isBlocked: bool, createdAt: string, updatedAt: string)

  const WalletEndpoint := "https://fantacy-app-backend.onrender.com/auth/wallet/"
  const FetchError := "Failed to fetch wallets"

  function WalletIdKey(w: Wallet): real
  {
    w.walletId as real
  }

  /** The action the request asks for: a blocked wallet is unblocked, any other is blocked. */
  function BlockRoute(isBlocked: bool): string
  {
    if isBlocked then "unblock" else "block"
  }

  /** The URL `handleBlockUnblock` sends its PUT to. */
  function BlockUrl(walletId: int, isBlocked: bool): string
  {
    WalletEndpoint + BlockRoute(isBlocked) + "/" + IntToString(walletId)
  }

  /**
   * `prevWallets.map(w => w.walletId === walletId ? { ...w, isBlocked: !isBlocked } : w)`:
   * every wallet with the id gets the opposite of the passed status; the rest are untouched.
   */
  function ToggleBlocked(ws: seq<Wallet>, walletId: int, isBlocked: bool): (r: seq<Wallet>)
    ensures |r| == |ws|
    ensures forall i :: 0 <= i < |ws| && ws[i].walletId == walletId ==>
      r[i] == ws[i].(isBlocked := !isBlocked)
    ensures forall i :: 0 <= i < |ws| && ws[i].walletId != walletId ==> r[i] == ws[i]
  {
    if |ws| == 0 then []
    else
      var w := ws[0];
      [if w.walletId == walletId then w.(isBlocked := !isBlocked) else w] + ToggleBlocked(ws[1..], walletId, isBlocked)
  }

  /**
   * Toggling back: when every wallet with the id had the passed status `b`, a
   * second request for the same wallet (which then passes `!b`) restores the list.
   */
  lemma ToggleTwiceRestores(ws: seq<Wallet>, walletId: int, b: bool)
    requires forall i :: 0 <= i < |ws| && ws[i].walletId == walletId ==> ws[i].isBlocked == b
    ensures ToggleBlocked(ToggleBlocked(ws, walletId, b), walletId, !b) == ws
  {
    var once := ToggleBlocked(ws, walletId, b);
    var twice := ToggleBlocked(once, walletId, !b);
    forall i | 0 <= i < |ws| ensures twice[i] == ws[i] {
      if ws[i].walletId == walletId {
        assert once[i] == ws[i].(isBlocked := !b);
      }
    }
  }

  /** After a successful toggle, the wallet's button asks for the opposite action. */
  lemma RouteFlipsAfterToggle(ws: seq<Wallet>, i: int)
    requires 0 <= i < |ws|
    ensures var r := ToggleBlocked(ws, ws[i].walletId, ws[i].isBlocked);
      BlockRoute(r[i].isBlocked) != BlockRoute(ws[i].isBlocked)
  {
  }

  /** The search box: the lowercased wallet id or user id contains the lowercased query. */
  predicate MatchesQuery(w: Wallet, searchQuery: string)
  {
    ContainsIgnoringCase(IntToString(w.walletId), searchQuery) ||
    ContainsIgnoringCase(JsString(w.userId), searchQuery)
  }

  /** The status select: "blocked" keeps blocked wallets, any other value unblocked ones. */
  predicate MatchesStatus(w: Wallet, filterStatus: string)
  {
    w.isBlocked == (filterStatus == "blocked")
  }

  /** Whether a wallet survives the search and the status filter; empty inputs filter nothing. */
  predicate Shown(w: Wallet, searchQuery: string, filterStatus: string)
  {
    (searchQuery == "" || MatchesQuery(w, searchQuery)) &&
    (filterStatus == "" || MatchesStatus(w, filterStatus))
  }

  function QueryFilter(searchQuery: string): Wallet -> bool
  {
    (w: Wallet) => MatchesQuery(w, searchQuery)
  }

  function StatusFilter(filterStatus: string): Wallet -> bool
  {
    (w: Wallet) => MatchesStatus(w, filterStatus)
  }

  function ShownFilter(searchQuery: string, filterStatus: string): Wallet -> bool
  {
    (w: Wallet) => Shown(w, searchQuery, filterStatus)
  }

  /**
   * The filter effect: `filteredData` starts as all wallets and is narrowed by the
   * query, when there is one, and then by the status, when one is selected.
   */
  method FilterWallets(wallets: seq<Wallet>, searchQuery: string, filterStatus: string) returns (filtered: seq<Wallet>)
    ensures filtered == Filter(wallets, ShownFilter(searchQuery, filterStatus))
    ensures IsSubsequence(filtered, wallets)
    ensures forall w :: w in filtered <==> w in wallets && Shown(w, searchQuery, filterStatus)
    ensures searchQuery == "" && filterStatus == "" ==> filtered == wallets
  {
    filtered := wallets;
    if searchQuery != "" {
      filtered := Filter(filtered, QueryFilter(searchQuery));
    }
    if filterStatus != "" {
      filtered := Filter(filtered, StatusFilter(filterStatus));
    }

    var shown := ShownFilter(searchQuery, filterStatus);
    if searchQuery != "" && filterStatus != "" {
      FilterThenFilter(wallets, QueryFilter(searchQuery), StatusFilter(filterStatus), shown);
    } else if searchQuery != "" {
      FilterAgree(wallets, QueryFilter(searchQuery), shown);
    } else if filterStatus != "" {
      FilterAgree(wallets, StatusFilter(filterStatus), shown);
    } else {
      FilterKeepsAll(wallets, shown);
    }
    FilterIsSubsequence(wallets, shown);
    forall w ensures w in filtered <==> w in wallets && Shown(w, searchQuery, filterStatus) {
      FilterMembership(wallets, shown, w);
    }
  }

  /** The page's state. */
  class WalletPage {
    var wallets: seq<Wallet>
    var filteredWallets: seq<Wallet>
    var loading: bool
    var error: Option<string>
    var searchQuery: string
    var filterStatus: string

    constructor ()
      ensures wallets == [] && filteredWallets == [] && loading && error == None
      ensures searchQuery == "" && filterStatus == ""
    {
      wallets, filteredWallets := [], [];
      loading, error := true, None;
      searchQuery, filterStatus := "", "";
    }

    /**
     * `fetchWallets`: on success the response array is sorted in place by wallet id,
     * highest first, and becomes both lists; on failure only the error is set.
     */
    method FetchWallets(response: Option<array<Wallet>>)
      modifies this, if response.Some? then {response.value} else {}
      ensures !loading && searchQuery == old(searchQuery) && filterStatus == old(filterStatus)
      ensures response.None? ==>
        error == Some(FetchError) && wallets == old(wallets) && filteredWallets == old(filteredWallets)
      ensures response.Some? ==>
        error == None && filteredWallets == wallets && wallets == response.value[..] &&
        wallets == SortDesc(old(response.value[..]), WalletIdKey)
    {
      loading := true;
      if response.None? {
        error := Some(FetchError);
      } else {
        var data := response.value;
        SortInPlace(data, WalletIdKey);
        wallets := data[..];
        filteredWallets := wallets;
        error := None;
      }
      loading := false;
    }

    /**
     * `handleBlockUnblock(walletId, isBlocked)` once the PUT has answered with
     * `status` (`None` when it threw): a 200 flips the wallet in both lists; anything
     * else changes neither. Returns the URL the request went to.
     */
    method HandleBlockUnblock(walletId: int, isBlocked: bool, status: Option<int>) returns (url: string)
      modifies this
      ensures url == BlockUrl(walletId, isBlocked)
      ensures status == Some(200) ==>
        wallets == ToggleBlocked(old(wallets), walletId, isBlocked) &&
        filteredWallets == ToggleBlocked(old(filteredWallets), walletId, isBlocked)
      ensures status != Some(200) ==> wallets == old(wallets) && filteredWallets == old(filteredWallets)
      ensures loading == old(loading) && error == old(error)
      ensures searchQuery == old(searchQuery) && filterStatus == old(filterStatus)
    {
      url := BlockUrl(walletId, isBlocked);
      if status == Some(200) {
        wallets := ToggleBlocked(wallets, walletId, isBlocked);
        filteredWallets := ToggleBlocked(filteredWallets, walletId, isBlocked);
      }
    }

    /** The search box's and the status select's `onChange`. */
    method SetSearch(query: string, status: string)
      modifies this
      ensures searchQuery == query && filterStatus == status
      ensures wallets == old(wallets) && filteredWallets == old(filteredWallets)
      ensures loading == old(loading) && error == old(error)
    {
      searchQuery, filterStatus := query, status;
    }

    /** The filter effect, run whenever the query, the status or the wallets change. */
    method RefreshFilter()
      modifies this
      ensures filteredWallets == Filter(wallets, ShownFilter(searchQuery, filterStatus))
      ensures wallets == old(wallets) && searchQuery == old(searchQuery) && filterStatus == old(filterStatus)
      ensures loading == old(loading) && error == old(error)
    {
      filteredWallets := FilterWallets(wallets, searchQuery, filterStatus);
    }
  }

  /** The fetched list is sorted by wallet id, highest first, and is a permutation of the response. */
  lemma FetchedWalletsSorted(response: seq<Wallet>)
    ensures SortedDesc(SortDesc(response, WalletIdKey), WalletIdKey)
    ensures multiset(SortDesc(response, WalletIdKey)) == multiset(response)
    ensures forall i, j :: 0 <= i < j < |SortDesc(response, WalletIdKey)| ==>
      SortDesc(response, WalletIdKey)[i].walletId >= SortDesc(response, WalletIdKey)[j].walletId
  {
    SortDescSorted(response, WalletIdKey);
    SortDescPermutes(response, WalletIdKey);
  }

  /** With distinct wallet ids, as the backend issues them, the order is strictly descending. */
  lemma FetchedWalletsStrictlyDescending(response: seq<Wallet>)
    requires forall i, j :: 0 <= i < j < |response| ==> response[i].walletId != response[j].walletId
    ensures forall i, j :: 0 <= i < j < |SortDesc(response, WalletIdKey)| ==>
      SortDesc(response, WalletIdKey)[i].walletId > SortDesc(response, WalletIdKey)[j].walletId
  {
    var sorted := SortDesc(response, WalletIdKey);
    SortDescSorted(response, WalletIdKey);
    forall i, j | 0 <= i < j < |sorted| ensures sorted[i].walletId > sorted[j].walletId {
      SortedIdsDiffer(response, i, j);
    }
  }

  lemma SortedIdsDiffer(response: seq<Wallet>, i: int, j: int)
    requires forall i, j :: 0 <= i < j < |response| ==> response[i].walletId != response[j].walletId
    requires 0 <= i < j < |SortDesc(response, WalletIdKey)|
    ensures SortDesc(response, WalletIdKey)[i].walletId != SortDesc(response, WalletIdKey)[j].walletId
  {
    var sorted := SortDesc(response, WalletIdKey);
    if sorted[i].walletId == sorted[j].walletId {
      var k := WalletIdKey(sorted[i]);
      var same := HasKey(WalletIdKey, k);
      assert same(sorted[i]) && same(sorted[j]);
      FilterKeepsTwo(sorted, same, i, j);
      SortDescStable(response, WalletIdKey, k);
      forall a, b | 0 <= a < b < |response| && same(response[a]) ensures !same(response[b]) {
        assert response[a].walletId != response[b].walletId;
      }
      FilterKeepsAtMostOne(response, same);
    }
  }
}
