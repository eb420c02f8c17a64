/**
 * The notification history page's `filteredNotifications`: a notification is
 * listed when its type equals the selected type ignoring case (or no type is
 * selected) and its message or push token contains the search text ignoring
 * case (or the search box is empty).
 */
module NotificationHistory {
  import opened Text
  import opened Seqs

  /** A sent notification; `kind` is the record's `type` field. */
  datatype Notification = Notification(notiId: Id, kind: string, message: string, expoPushToken: string, createdAt: string)

  predicate TypeMatches(n: Notification, filterType: string)
  {
    filterType == "" || EqualsIgnoringCase(n.kind, filterType)
  }

  predicate SearchMatches(n: Notification, searchQuery: string)
  {
    searchQuery == "" ||
    ContainsIgnoringCase(n.message, searchQuery) ||
    ContainsIgnoringCase(n.expoPushToken, searchQuery)
  }

  /** The `filter` callback. */
  predicate Listed(n: Notification, filterType: string, searchQuery: string)
  {
    TypeMatches(n, filterType) && SearchMatches(n, searchQuery)
  }

  function ListedFilter(filterType: string, searchQuery: string): Notification -> bool
  {
    (n: Notification) => Listed(n, filterType, searchQuery)
  }

  /** `notifications.filter(...)`. */
  function FilteredNotifications(notifications: seq<Notification>, filterType: string, searchQuery: string): seq<Notification>
  {
    Filter(notifications, ListedFilter(filterType, searchQuery))
  }

  /**
   * The listed notifications keep their order; a notification is listed exactly
   * when it passes both the type and the search condition; with both inputs empty
   * everything is listed; and each condition holds of every listed notification.
   */
  lemma FilteredNotificationsExact(notifications: seq<Notification>, filterType: string, searchQuery: string)
    ensures var r := FilteredNotifications(notifications, filterType, searchQuery);
      IsSubsequence(r, notifications) &&
      (forall n :: n in r <==> n in notifications && Listed(n, filterType, searchQuery)) &&
      (filterType == "" && searchQuery == "" ==> r == notifications) &&
      (filterType != "" ==> forall i :: 0 <= i < |r| ==> Lower(r[i].kind) == Lower(filterType)) &&
      (searchQuery != "" ==> forall i :: 0 <= i < |r| ==>
        ContainsIgnoringCase(r[i].message, searchQuery) || ContainsIgnoringCase(r[i].expoPushToken, searchQuery))
  {
    var keep := ListedFilter(filterType, searchQuery);
    FilterIsSubsequence(notifications, keep);
    FilterSound(notifications, keep);
    if filterType == "" && searchQuery == "" {
      FilterKeepsAll(notifications, keep);
    }
    forall n ensures n in Filter(notifications, keep) <==> n in notifications && keep(n) {
      FilterMembership(notifications, keep, n);
    }
  }

  /** A search within a type selection keeps a subsequence of what the type selection alone keeps. */
  lemma SearchNarrowsTypeSelection(notifications: seq<Notification>, filterType: string, searchQuery: string)
    ensures FilteredNotifications(notifications, filterType, searchQuery)
         == Filter(FilteredNotifications(notifications, filterType, ""), ListedFilter("", searchQuery))
  {
    FilterThenFilter(notifications, ListedFilter(filterType, ""), ListedFilter("", searchQuery),
                     ListedFilter(filterType, searchQuery));
  }
}
