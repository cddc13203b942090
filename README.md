# Warframe market front end: search, price alerts and notifications

This project models the client-side logic of the Warframe Utils web front
end in Dafny and proves properties of it. A user searches the Warframe
market for an item, sees its sell and buy orders, and creates a price alert
on it. The server later raises notifications for triggered alerts, which the
front end polls, counts and lets the user mark as read.

The modelled parts:

- `api.dfy` (module `Api`): how the API base URL is chosen from the runtime
  (browser or server, two environment variables) and how an endpoint is
  joined to it.
- `search.dfy` (module `Search`): the search section. This covers
  autocomplete suggestions, the search request, the item image URL, the wiki
  link, and the alert-creation request. Its state is the class
  `SearchSection`, whose methods step through typing, selecting a suggestion,
  Enter, searching and creating an alert.
- `orders.dfy` (module `OrderBook`): the order book as displayed. Orders are
  filtered by kind and sorted with in-game traders first, then by price. The
  default alert price is the first sell order's price.
- `price.dfy` (module `PriceField`): the price text fields seen through
  `parseFloat`, and the guards that accept or refuse them.
- `notifications.dfy` (module `Notifications`): the notification hook. Its
  state is the class `NotificationStore`, one per component that calls the
  hook: polling, detecting new notifications (one toast each), marking one
  or all as read, and the unread counter.
- `alerts.dfy` (module `PriceAlerts`): the user's alerts and the "Modify
  Price Alert" dialog. The notification bell and the alerts section
  implement this dialog identically, so it is one class, `AlertEditor`.
- `bell.dfy` (module `Bell`): the bell's badge (count, visibility and label)
  and the click on a notification.
- `alerts_section.dfy` (module `AlertsSection`): the triggered banner and
  the "Your Alerts" list.
- `seqs.dfy`, `text.dfy`, `wrappers.dfy`: the JavaScript list and string
  operations the components use (`filter`, `slice`, `includes`,
  `toLowerCase`, `trim`, `replace`, `encodeURIComponent`), and `Option`.

Each network request is a parameter. An operation that fetches receives the
outcome of its request (a response body, or a failure) and returns the
request it would send. Whether a user is logged in is also a parameter.

Prices are whole platinum amounts (`int`). A price text field is a
`PriceInput`: empty, text that parses to a number, or text that does not
parse (NaN).

Where a check in the source calls `s.trim()` and tests the result for
emptiness, the model tests `IsBlank(s)` instead. `Text.TrimEmptyIffBlank`
proves the two agree.

## Model

| member | source | states |
|---|---|---|
| Api.GetApiUrl | warframe-frontend/src/lib/api.ts:6-14 | In a browser the base is "/api". On the server it is the first non-empty of NEXT_PUBLIC_API_URL and BACKEND_URL, else "/api". The base is never empty. |
| Api.CleanEndpoint | warframe-frontend/src/lib/api.ts:22 | The endpoint is the cleaned one with its leading "/" put back when it had one: exactly one slash is removed, and only when present. |
| Api.BrowserIgnoresEnvironment | warframe-frontend/src/lib/api.ts:8-11 | Any two browser environments give the same base, "/api", whatever their variables hold. |
| Api.JoinEndpoint | warframe-frontend/src/lib/api.ts:22-23 | The URL starts with the base and one "/". An endpoint with a leading slash is appended as is; any other endpoint gets one "/" in front. |
| Api.ApiUrl | warframe-frontend/src/lib/api.ts:19-24 | The URL is the chosen base, one "/", then the endpoint with at most one leading slash removed. In a browser it starts with "/api/". |
| Api.LeadingSlashIrrelevant | warframe-frontend/src/lib/api.ts:21-23 | "/x" and "x" give the same URL. |
| Api.OnlyOneSlashStripped | warframe-frontend/src/lib/api.ts:22 | Only one slash is removed: an endpoint starting "//" still gives "//" after the base. |
| Api.EndpointRecoverable | warframe-frontend/src/lib/api.ts:23 | The base and the cleaned endpoint can both be read back from the URL. |
| Seqs.Filter | warframe-frontend/src/components/search-section.tsx:84-87 | The result keeps exactly the elements satisfying the predicate, each as often as in the input, and is no longer than the input. |
| Seqs.Take | warframe-frontend/src/components/search-section.tsx:88 | The result is a prefix of the input, of length min(n, length). |
| Seqs.FilterIsSubsequence | warframe-frontend/src/hooks/useNotifications.ts:48 | A filtered list keeps its elements in their original order. |
| Seqs.FilterHead | warframe-frontend/src/components/search-section.tsx:142-144 | The first kept element is the first element of the input satisfying the predicate. |
| Seqs.FilterConcat | warframe-frontend/src/hooks/useNotifications.ts:48 | Filtering a concatenation filters each part. |
| Seqs.FilterKeepsAll | warframe-frontend/src/hooks/useNotifications.ts:48 | A filter that every element passes returns the list unchanged. |
| Text.Includes | warframe-frontend/src/components/search-section.tsx:86 | `includes` holds exactly when the substring occurs at some index. |
| Text.Lower | warframe-frontend/src/components/search-section.tsx:86 | `toLowerCase` keeps the length; LowerSpec states what each character becomes. |
| Text.LowerSpec | warframe-frontend/src/components/search-section.tsx:86 | Each ASCII capital becomes its small letter, no capital is left, every other character is kept, and lower-casing twice is lower-casing once. |
| Text.TrimStart | warframe-frontend/src/components/search-section.tsx:133 | The result is a suffix of the input. Everything removed is whitespace, and the result does not start with whitespace. |
| Text.TrimEnd | warframe-frontend/src/components/search-section.tsx:133 | The result is a prefix of the input. Everything removed is whitespace, and the result does not end with whitespace. |
| Text.Trim | warframe-frontend/src/components/search-section.tsx:133 | The trimmed query is no longer than the input, and it neither starts nor ends with whitespace. |
| Text.TrimSpec | warframe-frontend/src/components/search-section.tsx:133 | The trimmed query is a slice of the input with only whitespace before and after it. |
| Text.TrimEmptyIffBlank | warframe-frontend/src/components/search-section.tsx:83 | `trim()` gives the empty string exactly when every character is whitespace. |
| Text.UnderscoreSpaces | warframe-frontend/src/components/search-section.tsx:300 | `replace(/ /g, "_")` keeps the length; UnderscoreSpacesSpec states each position. |
| Text.UnderscoreSpacesSpec | warframe-frontend/src/components/search-section.tsx:300 | Every space becomes "_", every other character is kept in place, and no space is left. |
| Text.EncodeUriComponent | warframe-frontend/src/components/search-section.tsx:133 | `encodeURIComponent` as UTF-8 percent-encoding of every character outside the unreserved set; EncodeUriComponentSpec states its alphabet and length. |
| Text.EncodeUriComponentSpec | warframe-frontend/src/components/search-section.tsx:133 | The output holds only unreserved characters and "%". A string of unreserved characters is unchanged. The output is 1 to 12 times as long as the input. |
| OrderBook.Compare | warframe-frontend/src/components/search-section.tsx:285-291 | The comparator: in-game traders first, then sell prices ascending or buy prices descending; CompareIsConsistent states that it orders consistently. |
| OrderBook.CompareIsConsistent | warframe-frontend/src/components/search-section.tsx:285-291 | The comparator is antisymmetric, returns 0 for equal arguments, and "not after" is transitive. This is the consistency `sort` needs. |
| OrderBook.Insert | warframe-frontend/src/components/search-section.tsx:285-291 | Inserting into an ordered list adds exactly that order and keeps the list ordered. |
| OrderBook.SortBy | warframe-frontend/src/components/search-section.tsx:283-291 | The result is a permutation of the input and is ordered under the comparator. |
| OrderBook.SortOrders | warframe-frontend/src/components/search-section.tsx:282-291 | `sortOrders`: the orders of the requested type sorted by the comparator; SortOrdersSpec states which orders it holds and in what order. |
| OrderBook.SortOrdersSpec | warframe-frontend/src/components/search-section.tsx:282-295 | The list holds exactly the orders of the requested type, with their multiplicities. In-game traders come first. Within a group, sell prices rise and buy prices fall. |
| OrderBook.DefaultAlertPrice | warframe-frontend/src/components/search-section.tsx:141-147 | None exactly when there is no sell order. Otherwise it is the price of the first sell order in the list. |
| OrderBook.DefaultIsLowestSell | warframe-frontend/src/components/search-section.tsx:141-144 | If orders arrive with sell prices ascending and buy prices descending, the default alert price is the lowest sell price. |
| PriceField.Shown | warframe-frontend/src/components/search-section.tsx:144 | A price written into a field reads back as that number. |
| PriceField.Parsed | warframe-frontend/src/components/search-section.tsx:249 | The parsed price is sent when the field holds a number; NaN is sent as null. |
| PriceField.AcceptsNewAlertPrice | warframe-frontend/src/components/search-section.tsx:231 | The createAlert guard as written: refuse an empty field or a parsed price <= 0; AcceptsNewAlertPriceSpec states what it accepts. |
| PriceField.AcceptsNewAlertPriceSpec | warframe-frontend/src/components/search-section.tsx:231 | On the values a number input can hold, the createAlert guard accepts exactly the positive prices. It refuses the empty field. Text that does not parse passes the guard alone. |
| PriceField.AcceptsEditedPrice | warframe-frontend/src/components/alerts-section.tsx:103-104 | The updateAlert guard as written: refuse NaN or a price < 0; AcceptsEditedPriceSpec states what it accepts. |
| PriceField.AcceptsEditedPriceSpec | warframe-frontend/src/components/alerts-section.tsx:103-111 | An edited price is accepted exactly when it is a number >= 0. 0 is accepted here but refused for a new alert. |
| Search.Suggestions | warframe-frontend/src/components/search-section.tsx:84-88 | At most ten suggestions. |
| Search.MatchesQuery | warframe-frontend/src/components/search-section.tsx:86 | The lower-cased item name includes the lower-cased query; MatchIgnoresCase and SerrationMatchesInAnyCase state that the case of the query does not matter. |
| Search.MatchIgnoresCase | warframe-frontend/src/components/search-section.tsx:86 | Two queries equal once lower-cased match exactly the same items. |
| Search.SerrationMatchesInAnyCase | warframe-frontend/src/components/search-section.tsx:86 | An item named "Serration" matches both "serration" and "SERRATION". |
| Search.Matching | warframe-frontend/src/components/search-section.tsx:84-87 | Exactly the catalog items whose lower-cased name contains the lower-cased query. |
| Search.SuggestionsSpec | warframe-frontend/src/components/search-section.tsx:82-94 | The suggestions are the first matching catalog items, in catalog order: every suggestion is an item whose lower-cased name contains the lower-cased query, and a matching item is missing only when ten are shown. |
| Search.OwnNameIsSuggested | warframe-frontend/src/components/search-section.tsx:113-118 | A catalog item matches its own name, so searching for that name lists at least one suggestion. |
| Search.ImageUrl | warframe-frontend/src/components/search-section.tsx:189-197 | None exactly when there are no details, or neither icon nor thumb is present. The icon is preferred. A path starting "http" is kept, others get the assets prefix. The result always starts with "http". |
| Search.WikiLink | warframe-frontend/src/components/search-section.tsx:297-302 | The item's own wiki link if present. Else, with an item selected, the fandom page for its encoded name. Else none. |
| Search.WikiPage | warframe-frontend/src/components/search-section.tsx:300 | The generated page name: spaces made "_", then encoded; WikiPageSpec states its form. |
| Search.WikiPageSpec | warframe-frontend/src/components/search-section.tsx:300 | A generated page name is a single path segment. A name of unreserved characters and spaces becomes that name with "_" for each space. |
| Search.SearchRequest | warframe-frontend/src/components/search-section.tsx:121-133 | No request exactly when the query is blank. Otherwise the URL is "/api/search?modName=" followed by the trimmed query, percent-encoded. |
| Search.AlertRequest | warframe-frontend/src/components/search-section.tsx:221-250 | A request is sent exactly when the user is logged in and the guard accepts the price. It names the selected item. Its itemId is the details' urlName when details are loaded, else absent. Its price is the field parsed: positive for a number-input value, null exactly for NaN text. |
| Search.DefaultPriceField | warframe-frontend/src/components/search-section.tsx:141-147 | The field is empty exactly when there is no sell order. Otherwise it holds the price of the first sell order in the list. |
| Search.AfterSearch | warframe-frontend/src/components/search-section.tsx:121-187 | A blank query leaves the result area and refreshes nothing. A found item brings its details and its orders (none if absent), is selected under its own name (the query when it has none), and the price field gets the first sell order's price; a logged-in user's notifications are refreshed. Any other answer clears details, orders and selection, keeps the price field and refreshes nothing. |
| Search.SearchAgainChangesNothing | warframe-frontend/src/components/search-section.tsx:121-187 | Repeating a search with the same answer leaves the result area as the first search left it. |
| Search.SearchSection.constructor | warframe-frontend/src/components/search-section.tsx:48-58 | The initial state: empty query, catalog and suggestions; nothing selected; empty price field; nothing in progress. |
| Search.SearchSection.FilterSuggestions | warframe-frontend/src/components/search-section.tsx:82-94 | A non-blank query recomputes the suggestions and shows them if any exist. A blank query hides them and keeps the old list. The invariant holds: at most ten, never shown empty. |
| Search.SearchSection.SetQuery | warframe-frontend/src/components/search-section.tsx:323 | Typing sets the query and reruns the suggestion effect on it. |
| Search.SearchSection.LoadCatalog | warframe-frontend/src/components/search-section.tsx:66-79 | The catalog is replaced, and the suggestions are recomputed against it. |
| Search.SearchSection.Focus | warframe-frontend/src/components/search-section.tsx:335-339 | Focusing shows the list again when it is not empty. |
| Search.SearchSection.HideSuggestions | warframe-frontend/src/components/search-section.tsx:96-111 | A click outside the box and the list hides the list. |
| Search.SearchSection.ApplySearchResponse | warframe-frontend/src/components/search-section.tsx:131-186 | A found item sets the details, the orders (none if absent) and the selected name (the query if the name is empty). The price field gets the default price, and a logged-in user's notifications are refreshed. Any other outcome clears details, orders and selection. Loading ends false. |
| Search.SearchSection.PerformSearch | warframe-frontend/src/components/search-section.tsx:121-187 | The request is SearchRequest(query): none for a blank query. The result area and the refresh flag become AfterSearch of the old result area. Loading ends false once a request was sent. |
| Search.SearchSection.ChooseQuery | warframe-frontend/src/components/search-section.tsx:113-118 | The query becomes the item's name. A changed, non-blank query recomputes the suggestions, so a catalog item's list reopens. An unchanged or blank query keeps the old list, hidden, for a later focus to show again. |
| Search.SearchSection.SelectSuggestion | warframe-frontend/src/components/search-section.tsx:113-119 | The query becomes the item's name and SearchRequest of that name is sent. The result area becomes AfterSearch for that name. A changed, non-blank query recomputes the suggestions, so a catalog item's list reopens. An unchanged or blank query keeps the old list, hidden, for a later focus to show again. |
| Search.SearchSection.PressEnter | warframe-frontend/src/components/search-section.tsx:324-333 | While loading nothing changes. With the list open the first suggestion is selected: the query, request, result area and suggestions are as SelectSuggestion states, and a suggestion equal to the query keeps the old list, hidden. Otherwise the typed query is searched: the result area becomes AfterSearch of it and the list stays closed and unchanged. |
| Search.SearchSection.SetAlertPrice | warframe-frontend/src/components/search-section.tsx:456 | Typing into the price field sets it. |
| Search.SearchSection.CreateAlert | warframe-frontend/src/components/search-section.tsx:221-279 | The request is AlertRequest of the current state. A successful creation clears the price field and refreshes the notifications. A refused one changes nothing. |
| Notifications.NewOnesSpec | warframe-frontend/src/hooks/useNotifications.ts:45-48 | The new notifications are exactly the fetched ones whose id was not in the previous list, in fetched order. |
| Notifications.NewOnes | warframe-frontend/src/hooks/useNotifications.ts:48 | There are never more new notifications than fetched ones. |
| Notifications.SameListNothingNew | warframe-frontend/src/hooks/useNotifications.ts:45-63 | Within one store, fetching the same list again yields no new notification, so that store toasts nothing again. |
| Notifications.GrownListOnlyAdditionsNew | warframe-frontend/src/hooks/useNotifications.ts:45-63 | If the list grows by notifications with fresh ids, exactly those are new, in order. |
| Notifications.MarkRead | warframe-frontend/src/hooks/useNotifications.ts:98-100 | The length is unchanged; which entries change is stated by MarkReadSpec. |
| Notifications.MarkAllRead | warframe-frontend/src/hooks/useNotifications.ts:112 | Every entry becomes the same entry with isRead set, at the same position; entries already read are unchanged. |
| Notifications.MarkReadSpec | warframe-frontend/src/hooks/useNotifications.ts:98-100 | Only entries with that id change, and only their read flag. Length, order, ids and the other entries are kept. |
| Notifications.MarkReadCommutes | warframe-frontend/src/hooks/useNotifications.ts:110 | Marking two ids in either order gives the same list, and marking twice equals marking once. So concurrently completing requests agree. |
| Notifications.Unread | warframe-frontend/src/hooks/useNotifications.ts:110 | Exactly the unread entries, in list order. |
| Notifications.UnreadIds | warframe-frontend/src/hooks/useNotifications.ts:110 | One id per unread entry, the k-th being the id of the k-th unread entry. So an id is requested exactly when some unread entry has it, and there are as many requests as unread entries. |
| Notifications.MarkEach | warframe-frontend/src/hooks/useNotifications.ts:110 | The length is unchanged. |
| Notifications.MarkEachSpec | warframe-frontend/src/hooks/useNotifications.ts:110 | Marking a sequence of ids marks exactly the entries whose id is among them. |
| Notifications.MarkingUnreadIdsMarksAll | warframe-frontend/src/hooks/useNotifications.ts:110-112 | The per-id requests of "mark all" have the same local effect as the final "all read" update. |
| Notifications.MarkUnreadCountsDown | warframe-frontend/src/hooks/useNotifications.ts:96-101 | With distinct ids, marking an unread entry lowers the number of unread entries by exactly one, like the counter. |
| Notifications.NoneUnreadCountsZero | warframe-frontend/src/hooks/useNotifications.ts:112-113 | A list with every entry read has no unread entry, matching the reset counter. |
| Notifications.AllUnreadCountsAll | warframe-frontend/src/hooks/useNotifications.ts:66 | A list of unread entries counts all of them, matching the counter set from the list length. |
| Notifications.NotificationStore.constructor | warframe-frontend/src/hooks/useNotifications.ts:18-19 | Empty list, counter 0. |
| Notifications.NotificationStore.Fetch | warframe-frontend/src/hooks/useNotifications.ts:32-73 | On success the list is replaced, the counter becomes its length, and the toasts are NewOnes of the old and new lists. For an all-unread list the counter equals the unread count. On failure nothing changes. Invariant: 0 <= counter <= list length. |
| Notifications.NotificationStore.Refresh | warframe-frontend/src/hooks/useNotifications.ts:119-159 | Does the same as a poll for a logged-in user, and nothing otherwise. |
| Notifications.NotificationStore.MarkAsRead | warframe-frontend/src/hooks/useNotifications.ts:86-106 | On success that id is marked read and the counter drops by one, not below 0. On failure nothing changes. |
| Notifications.NotificationStore.MarkAllAsRead | warframe-frontend/src/hooks/useNotifications.ts:108-117 | One request goes out per unread entry, in list order. Whatever the answers, every entry ends read and the counter is 0, in step with the list. |
| PriceAlerts.Triggered | warframe-frontend/src/components/alerts-section.tsx:183 | Exactly the triggered alerts. |
| PriceAlerts.Untriggered | warframe-frontend/src/components/alerts-section.tsx:222 | Exactly the alerts not triggered. |
| PriceAlerts.CountTriggered | warframe-frontend/src/components/NotificationBell.tsx:168 | The number of triggered alerts, counted one by one; never more than the alerts. |
| PriceAlerts.TriggeredLengthIsCount | warframe-frontend/src/components/NotificationBell.tsx:168 | The triggered list is exactly as long as the number of triggered alerts. |
| PriceAlerts.TriggeredPartition | warframe-frontend/src/components/alerts-section.tsx:179-222 | The triggered and untriggered lists split the alerts. Neither list shares an element with the other. Their multisets add up to the alerts', and each keeps the original order. |
| PriceAlerts.AnyTriggered | warframe-frontend/src/components/alerts-section.tsx:179 | `some(a => a.isTriggered)`: some alert is triggered; AnyTriggeredIffListed ties it to the triggered list. |
| PriceAlerts.AnyTriggeredIffListed | warframe-frontend/src/components/alerts-section.tsx:179-183 | `some(isTriggered)` holds exactly when the triggered list is non-empty. |
| PriceAlerts.AlertEditor.constructor | warframe-frontend/src/components/alerts-section.tsx:30-33 | No alerts, no dialog, empty field, nothing in progress. |
| PriceAlerts.AlertEditor.FetchAlerts | warframe-frontend/src/components/alerts-section.tsx:43-55 | A successful response replaces the list, and a failure keeps it. |
| PriceAlerts.AlertEditor.OpenEditDialog | warframe-frontend/src/components/alerts-section.tsx:90-93 | The dialog holds the alert, and the field holds its current target price. |
| PriceAlerts.AlertEditor.CloseEditDialog | warframe-frontend/src/components/alerts-section.tsx:95-98 | No alert is under edit and the field is empty (the invariant: a closed dialog has an empty field). |
| PriceAlerts.AlertEditor.SetEditPrice | warframe-frontend/src/components/alerts-section.tsx:286 | Typing into the open dialog's field sets it. |
| PriceAlerts.AlertEditor.UpdateAlert | warframe-frontend/src/components/alerts-section.tsx:100-147 | A request is sent exactly when an alert is under edit and its price is a number >= 0. The request carries that alert's id and price. On success the dialog closes and a refetch follows. Otherwise the dialog is unchanged. |
| AlertsSection.TriggeredBanner | warframe-frontend/src/components/alerts-section.tsx:179-183 | The banner shows exactly when some alert is triggered. It then lists exactly the triggered alerts and is not empty. |
| AlertsSection.YourAlerts | warframe-frontend/src/components/alerts-section.tsx:220-264 | The empty-state message shows exactly when there are no alerts. Otherwise the list holds exactly the untriggered alerts. |
| AlertsSection.EveryAlertShownOnce | warframe-frontend/src/components/alerts-section.tsx:179-222 | The banner and the list together show every alert exactly as often as it was fetched. |
| AlertsSection.AllTriggeredLeavesListBlank | warframe-frontend/src/components/alerts-section.tsx:220-264 | When every alert is triggered, "Your Alerts" lists nothing and shows no empty-state message either. |
| Bell.TriggeredCount | warframe-frontend/src/components/NotificationBell.tsx:168 | The number of triggered alerts (CountTriggered), at most the number of alerts, and 0 exactly when no alert is triggered. |
| Bell.BadgeCount | warframe-frontend/src/components/NotificationBell.tsx:169 | The unread count plus one exactly when some alert is triggered. So triggered alerts add at most one. |
| Bell.BadgeVisible | warframe-frontend/src/components/NotificationBell.tsx:177 | Either the badge count or the alert total is above 0; BadgeVisibleSpec states when it holds. |
| Bell.BadgeVisibleSpec | warframe-frontend/src/components/NotificationBell.tsx:177 | The badge shows exactly when something is unread or any alert exists. |
| Bell.Label | warframe-frontend/src/components/NotificationBell.tsx:182 | "9+" exactly when unread plus the triggered bonus exceeds 9. |
| Bell.LabelSpec | warframe-frontend/src/components/NotificationBell.tsx:177-182 | With something unread or triggered, the label is the badge count or "9+". Otherwise it is the number of alerts. A number above 9 appears only in that case. A visible badge never reads 0. |
| Bell.AlertTotalIsNotCapped | warframe-frontend/src/components/NotificationBell.tsx:182 | With ten untriggered alerts and nothing unread, the badge reads 10, not "9+". |
| Bell.ClickNotification | warframe-frontend/src/components/NotificationBell.tsx:307 | A click marks a notification read only when it is unread; on a read one nothing changes. A counter in step with a list of distinct ids stays in step. |

## Left out

- The network, React effects, timers, toasts and rendering are not modelled. Request outcomes, the logged-in user and the 30-second polling are parameters or successive calls.
- Concurrency is left out. Overlapping requests and the `Promise.all` in `markAllAsRead` are modelled as sequential steps. `Notifications.MarkReadCommutes` shows the local result does not depend on their order.
- Notifications.NotificationStore.MarkAllAsRead: the server's answers are given in a sequence as long as the unread ids; a failed request throws nothing in the source either, so the outcome is the same.
- Prices are whole numbers. `parseFloat` of fractional or exponent text, and numbers beyond `int`, are not modelled: a field is empty, a whole number or NaN.
- Text.Lower: `toLowerCase` is modelled for ASCII letters only. Unicode case mapping is left out.
- Text.EncodeUriComponent: strings are sequences of Unicode scalar values, so the lone surrogates on which the builtin throws do not arise.
- Text.EncodeUriComponentSpec: states the character set and length of the encoding, not a decoding round trip.
- OrderBook.SortBy: the engine's sort is stable. The model is a stable insertion sort, but stability is not stated as a lemma.
- OrderBook.DefaultIsLowestSell: the order of the orders comes from the backend's search controller. That order is a precondition here; the backend is not part of this model.
- The copy-username button, deleting alerts and the `isDeleting` flag are left out: they have no logic beyond a request and a toast.
- The bell's alert list and edit dialog are the same as the alerts section's, so they share `PriceAlerts.AlertEditor`. The bell's requests go to "/api/Alert" and the section's to "http://localhost:5089/api/Alert". After a successful update the bell also refreshes the notifications. These differences are not modelled.
- Search.SearchSection: the `loading` and `creatingAlert` flags are set during a request and cleared in `finally`. Since a request is one step here, they are always false between steps.
- Each component that calls `useNotifications` holds a store of its own: the search section and the bell each have a `NotificationStore`, with separate polling. So both toast the same new notification, and the search section's refresh after a search or a new alert updates a store the bell does not show. The model states every property per store and does not model the two stores side by side.
- The login gate of the alerts section ("Login Required" card) is left out: with no user, nothing of the section is rendered.
