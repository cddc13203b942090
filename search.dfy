/**
 * The market search section (warframe-frontend/src/components/search-section.tsx):
 * autocomplete suggestions, the item image and wiki links, and the component
 * state that a search and the creation of an alert step through.
 *
 * The network is a parameter: each operation that fetches receives the
 * outcome of its request and returns the request it would send.
 */
module Search {
  import opened Wrappers
  import opened Seqs
  import opened Text
  import opened OrderBook
  import opened PriceField

  /** An entry of the item catalog used for autocompletion. */
  datatype CatalogItem = CatalogItem(urlName: string, itemName: string)

  /** The item details returned by a search; absent optional fields are `None`. */
  datatype ModDetails = ModDetails(
    itemName: string,
    thumb: Option<string>,
    icon: Option<string>,
    wikiLink: Option<string>,
    urlName: Option<string>
  )

  // ---------------------------------------------------------------- suggestions

  const MaxSuggestions: nat := 10

  /** The catalog item's name, lower-cased, contains the lower-cased query. */
  predicate MatchesQuery(item: CatalogItem, query: string) {
    Includes(Lower(item.itemName), Lower(query))
  }

  /** Matching ignores the query's case: queries equal once lower-cased match the same items. */
  lemma MatchIgnoresCase(item: CatalogItem, query: string, other: string)
    requires Lower(query) == Lower(other)
    ensures MatchesQuery(item, query) == MatchesQuery(item, other)
  {
  }

  /** An item named "Serration" matches "serration" and "SERRATION" alike. */
  lemma {:induction false} SerrationMatchesInAnyCase(item: CatalogItem)
    requires item.itemName == "Serration"
    ensures MatchesQuery(item, "serration") && MatchesQuery(item, "SERRATION")
  {
    assert Lower("Serration") == "serration";
    assert Lower("SERRATION") == "serration";
    assert Lower("serration") == "serration";
    assert OccursAt("serration", "serration", 0);
  }

  function Matching(catalog: seq<CatalogItem>, query: string): (matches: seq<CatalogItem>)
    ensures forall item :: item in matches <==> item in catalog && MatchesQuery(item, query)
  {
    Filter(catalog, (item: CatalogItem) => MatchesQuery(item, query))
  }

  /** `autocompleteItems.filter(...).slice(0, 10)`. */
  function Suggestions(catalog: seq<CatalogItem>, query: string): (r: seq<CatalogItem>)
    ensures |r| <= MaxSuggestions
  {
    Take(Matching(catalog, query), MaxSuggestions)
  }

  /**
   * Every suggestion matches the query; there are at most ten; they keep
   * catalog order; and a matching catalog item is left out only when ten
   * suggestions are already shown.
   */
  lemma SuggestionsSpec(catalog: seq<CatalogItem>, query: string)
    ensures |Suggestions(catalog, query)| <= MaxSuggestions
    ensures forall item :: item in Suggestions(catalog, query) ==> item in catalog && MatchesQuery(item, query)
    ensures IsSubsequence(Suggestions(catalog, query), catalog)
    ensures Suggestions(catalog, query) == Matching(catalog, query)[..|Suggestions(catalog, query)|]
    ensures forall item :: (item in catalog && MatchesQuery(item, query) && item !in Suggestions(catalog, query)
      ==> |Suggestions(catalog, query)| == MaxSuggestions)
  {
    var m := Matching(catalog, query);
    var r := Suggestions(catalog, query);
    assert r == m[..|r|];
    forall item | item in r ensures item in m {
      var k :| 0 <= k < |r| && r[k] == item;
      assert m[k] == item;
    }
    FilterIsSubsequence(catalog, (item: CatalogItem) => MatchesQuery(item, query));
    PrefixOfSubsequence(m, catalog, |r|);
  }

  /** A catalog item always matches its own name, so selecting it leaves it among the suggestions. */
  lemma {:induction false} OwnNameIsSuggested(catalog: seq<CatalogItem>, item: CatalogItem)
    requires item in catalog
    ensures Suggestions(catalog, item.itemName) != []
  {
    var low := Lower(item.itemName);
    assert OccursAt(low, low, 0);
    assert MatchesQuery(item, item.itemName);
    assert item in Matching(catalog, item.itemName);
  }

  // ------------------------------------------------------------- image and wiki

  const AssetsBase: string := "https://warframe.market/static/assets/"

  /** `getImageUrl(modDetails)`: the icon, else the thumbnail, made absolute. */
  function ImageUrl(details: Option<ModDetails>): (url: Option<string>)
    ensures url.None? <==> details.None? || (!Present(details.value.icon) && !Present(details.value.thumb))
    ensures url.Some? ==> StartsWith(url.value, "http")
    ensures url.Some? ==>
      var path := if Present(details.value.icon) then details.value.icon.value else details.value.thumb.value;
      (StartsWith(path, "http") ==> url.value == path) && (!StartsWith(path, "http") ==> url.value == AssetsBase + path)
  {
    if details.None? then None
    else
      var d := details.value;
      var path := if Present(d.icon) then d.icon else d.thumb;
      if !Present(path) then None
      else if StartsWith(path.value, "http") then path
      else
        var url := AssetsBase + path.value;
        assert url[..4] == AssetsBase[..4];
        assert AssetsBase[..4] == "http" by {
          assert AssetsBase[0] == 'h' && AssetsBase[1] == 't' && AssetsBase[2] == 't' && AssetsBase[3] == 'p';
        }
        Some(url)
  }

  const WikiBase: string := "https://warframe.fandom.com/wiki/"

  /** The generated wiki page name for an item name. */
  function WikiPage(name: string): (page: string) {
    EncodeUriComponent(UnderscoreSpaces(name))
  }

  /**
   * `getWikiLink()`: the item's own wiki link if it has one; else, when an item
   * is selected, the wiki page built from its name; else none.
   */
  function WikiLink(details: Option<ModDetails>, selectedMod: Option<string>): (link: Option<string>)
    ensures details.Some? && Present(details.value.wikiLink) ==> link == details.value.wikiLink
    ensures !(details.Some? && Present(details.value.wikiLink)) && Present(selectedMod)
      ==> link == Some(WikiBase + WikiPage(selectedMod.value))
    ensures !(details.Some? && Present(details.value.wikiLink)) && !Present(selectedMod) ==> link.None?
  {
    if details.Some? && Present(details.value.wikiLink) then details.value.wikiLink
    else if Present(selectedMod) then Some(WikiBase + WikiPage(selectedMod.value))
    else None
  }

  /**
   * A generated page name is one path segment: it holds only unreserved
   * characters and `%`, so no space, `/`, `?` or `#`. A name made of letters,
   * digits and spaces becomes itself with `_` for each space.
   */
  lemma WikiPageSpec(name: string)
    ensures forall i :: 0 <= i < |WikiPage(name)| ==> IsUriComponentChar(WikiPage(name)[i])
    ensures (forall i :: 0 <= i < |name| ==> IsUnreserved(name[i]) || name[i] == ' ')
      ==> WikiPage(name) == UnderscoreSpaces(name)
  {
    EncodeUriComponentSpec(UnderscoreSpaces(name));
  }

  // ---------------------------------------------------------------- the state

  /** The outcome of `GET /api/search?modName=...`. */
  datatype SearchResponse =
    | Found(details: ModDetails, orders: Option<seq<Order>>) // 200 with `modDetails`
    | NotFound                                               // 200 without `modDetails`
    | Failed                                                 // error status or network error

  /** The body of `POST /api/Alert`; a NaN price is sent as `null`. */
  datatype NewAlertRequest = NewAlertRequest(itemName: Option<string>, itemId: Option<string>, alertPrice: Option<int>)

  const SearchPath: string := "/api/search?modName="

  /** The request a search sends, or none for a blank query. */
  function SearchRequest(query: string): (url: Option<string>)
    ensures url.None? <==> IsBlank(query)
    ensures url.Some? ==> StartsWith(url.value, SearchPath)
    ensures url.Some? ==> url.value == SearchPath + EncodeUriComponent(Trim(query))
  {
    // `!queryToSearch.trim()`, by TrimEmptyIffBlank
    if IsBlank(query) then None
    else
      var url := SearchPath + EncodeUriComponent(Trim(query));
      assert url[..|SearchPath|] == SearchPath;
      Some(url)
  }

  /**
   * The alert-creation request, or none when it is refused: only a logged-in
   * user with a price the guard accepts sends one, for the selected item. A
   * price from the number input is then positive.
   */
  function AlertRequest(loggedIn: bool, price: PriceInput, selectedMod: Option<string>,
                        details: Option<ModDetails>): (req: Option<NewAlertRequest>)
    ensures req.Some? <==> loggedIn && AcceptsNewAlertPrice(price)
    ensures req.Some? ==> req.value.itemName == selectedMod
    ensures req.Some? && FromNumberInput(price) ==> req.value.alertPrice.Some? && req.value.alertPrice.value > 0
    ensures req.Some? ==> (req.value.alertPrice.None? <==> price.NotANumber?)
    ensures req.Some? ==> req.value.alertPrice == Parsed(price)
    ensures req.Some? ==> req.value.itemId == if details.Some? then details.value.urlName else None
  {
    if !loggedIn || !AcceptsNewAlertPrice(price) then None
    else Some(NewAlertRequest(selectedMod, if details.Some? then details.value.urlName else None, Parsed(price)))
  }

  /** The price field after a successful search: the default alert price, or empty. */
  function DefaultPriceField(orders: seq<Order>): (p: PriceInput)
    ensures p.Blank? <==> forall i :: 0 <= i < |orders| ==> orders[i].orderType != "sell"
    ensures p.Number? ==> exists i :: (0 <= i < |orders| && orders[i].orderType == "sell" && orders[i].platinum == p.value
      && forall j :: 0 <= j < i ==> orders[j].orderType != "sell")
  {
    match DefaultAlertPrice(orders)
    case Some(v) => Shown(v)
    case None => Blank
  }

  /** The part of the section a search fills: details, orders, selected name and price field. */
  datatype ResultArea = ResultArea(
    modDetails: Option<ModDetails>,
    orders: seq<Order>,
    selectedMod: Option<string>,
    alertPrice: PriceInput
  )

  /**
   * What `performSearch(query)` leaves in the result area given the server's
   * answer, and whether the notifications are refreshed afterwards: a blank
   * query changes nothing; a found item brings its details and orders, is
   * selected under its own name (the query when it has none) and prefills
   * the price field with the first sell order's price; any other answer
   * clears the details, the orders and the selection but keeps the field.
   */
  function AfterSearch(before: ResultArea, query: string, response: SearchResponse, loggedIn: bool): (after: (ResultArea, bool))
    ensures IsBlank(query) ==> after == (before, false)
    ensures !IsBlank(query) && response.Found? ==>
      after.0.modDetails == Some(response.details)
      && after.0.orders == response.orders.GetOr([])
      && after.0.selectedMod == Some(if response.details.itemName != "" then response.details.itemName else query)
      && after.0.alertPrice == DefaultPriceField(after.0.orders)
      && after.1 == loggedIn
    ensures !IsBlank(query) && !response.Found? ==>
      after.0 == before.(modDetails := None, orders := [], selectedMod := None) && !after.1
  {
    if IsBlank(query) then (before, false)
    else match response
      case Found(details, found) =>
        var orders := found.GetOr([]);
        var name := if details.itemName != "" then details.itemName else query;
        (ResultArea(Some(details), orders, Some(name), DefaultPriceField(orders)), loggedIn)
      case _ => (before.(modDetails := None, orders := [], selectedMod := None), false)
  }

  /**
   * Searching again for the same query with the same answer changes nothing
   * more: a search's outcome depends on the result area only through the
   * price field a failed search keeps.
   */
  lemma SearchAgainChangesNothing(before: ResultArea, query: string, response: SearchResponse, loggedIn: bool)
    ensures AfterSearch(AfterSearch(before, query, response, loggedIn).0, query, response, loggedIn).0
      == AfterSearch(before, query, response, loggedIn).0
  {
  }

  class SearchSection {
    var searchQuery: string
    var autocompleteItems: seq<CatalogItem>
    var filteredSuggestions: seq<CatalogItem>
    var showSuggestions: bool
    var selectedMod: Option<string>
    var modDetails: Option<ModDetails>
    var orders: seq<Order>
    var alertPrice: PriceInput
    var loading: bool
    var creatingAlert: bool

    /** The list is never shown empty and never holds more than ten entries. */
    ghost predicate Valid()
      reads this
    {
      |filteredSuggestions| <= MaxSuggestions && (showSuggestions ==> filteredSuggestions != [])
    }

    /** The result area as it stands. */
    function Results(): (area: ResultArea)
      reads this`modDetails, this`orders, this`selectedMod, this`alertPrice
      ensures area.modDetails == modDetails && area.orders == orders
      ensures area.selectedMod == selectedMod && area.alertPrice == alertPrice
    {
      ResultArea(modDetails, orders, selectedMod, alertPrice)
    }

    constructor ()
      ensures Valid()
      ensures searchQuery == "" && autocompleteItems == [] && filteredSuggestions == [] && !showSuggestions
      ensures selectedMod.None? && modDetails.None? && orders == [] && alertPrice.Blank?
      ensures !loading && !creatingAlert
    {
      searchQuery, autocompleteItems, filteredSuggestions, showSuggestions := "", [], [], false;
      selectedMod, modDetails, orders, alertPrice := None, None, [], Blank;
      loading, creatingAlert := false, false;
    }

    /**
     * The suggestion effect, run whenever the query or the catalog changes:
     * for a non-blank query the suggestions are recomputed and shown when
     * there are any; for a blank query they are hidden and kept.
     */
    method FilterSuggestions()
      requires Valid()
      modifies this`filteredSuggestions, this`showSuggestions
      ensures Valid()
      ensures !IsBlank(searchQuery) ==>
        filteredSuggestions == Suggestions(autocompleteItems, searchQuery) && showSuggestions == (filteredSuggestions != [])
      ensures IsBlank(searchQuery) ==> filteredSuggestions == old(filteredSuggestions) && !showSuggestions
    {
      // `searchQuery.trim().length > 0`, by TrimEmptyIffBlank
      if !IsBlank(searchQuery) {
        var filtered := Suggestions(autocompleteItems, searchQuery);
        filteredSuggestions := filtered;
        showSuggestions := |filtered| > 0;
      } else {
        showSuggestions := false;
      }
    }

    /** Typing in the search box, followed by the suggestion effect. */
    method SetQuery(query: string)
      requires Valid()
      modifies this`searchQuery, this`filteredSuggestions, this`showSuggestions
      ensures Valid() && searchQuery == query
      ensures !IsBlank(query) ==>
        filteredSuggestions == Suggestions(autocompleteItems, query) && showSuggestions == (filteredSuggestions != [])
      ensures IsBlank(query) ==> filteredSuggestions == old(filteredSuggestions) && !showSuggestions
    {
      searchQuery := query;
      FilterSuggestions();
    }

    /** The catalog arrives, followed by the suggestion effect. */
    method LoadCatalog(items: seq<CatalogItem>)
      requires Valid()
      modifies this`autocompleteItems, this`filteredSuggestions, this`showSuggestions
      ensures Valid() && autocompleteItems == items
      ensures !IsBlank(searchQuery) ==>
        filteredSuggestions == Suggestions(items, searchQuery) && showSuggestions == (filteredSuggestions != [])
      ensures IsBlank(searchQuery) ==> filteredSuggestions == old(filteredSuggestions) && !showSuggestions
    {
      autocompleteItems := items;
      FilterSuggestions();
    }

    /** Focusing the box shows the last suggestions again if there are any. */
    method Focus()
      requires Valid()
      modifies this`showSuggestions
      ensures Valid()
      ensures showSuggestions == (old(showSuggestions) || filteredSuggestions != [])
    {
      if |filteredSuggestions| > 0 {
        showSuggestions := true;
      }
    }

    /** Escape, or a click outside the box and the list. */
    method HideSuggestions()
      requires Valid()
      modifies this`showSuggestions
      ensures Valid() && !showSuggestions
    {
      showSuggestions := false;
    }

    /**
     * The state a finished search leaves: a found item replaces the details,
     * the orders, the selected name and the price field; any other answer
     * clears the details, the orders and the selection. `refresh` says
     * whether the notifications are refreshed afterwards.
     */
    method ApplySearchResponse(query: string, response: SearchResponse, loggedIn: bool) returns (refresh: bool)
      requires Valid()
      modifies this`modDetails, this`orders, this`selectedMod, this`alertPrice, this`loading
      ensures Valid() && !loading
      ensures response.Found? ==>
        modDetails == Some(response.details)
        && orders == response.orders.GetOr([])
        && selectedMod == Some(if response.details.itemName != "" then response.details.itemName else query)
        && alertPrice == DefaultPriceField(orders)
        && refresh == loggedIn
      ensures !response.Found? ==>
        modDetails.None? && orders == [] && selectedMod.None? && alertPrice == old(alertPrice) && !refresh
    {
      refresh := false;
      loading := true;
      match response {
        case Found(details, found) =>
          modDetails := Some(details);
          orders := found.GetOr([]);
          selectedMod := Some(if details.itemName != "" then details.itemName else query);
          alertPrice := DefaultPriceField(orders);
          refresh := loggedIn;
        case NotFound =>
          modDetails, orders, selectedMod := None, [], None;
        case Failed =>
          modDetails, orders, selectedMod := None, [], None;
      }
      loading := false;
    }

    /**
     * `performSearch(query)` given the server's answer: a blank query sends
     * nothing and changes nothing; otherwise the request is sent and the
     * result area becomes what `AfterSearch` says.
     */
    method PerformSearch(query: string, response: SearchResponse, loggedIn: bool)
      returns (request: Option<string>, refresh: bool)
      requires Valid()
      modifies this`modDetails, this`orders, this`selectedMod, this`alertPrice, this`loading
      ensures Valid()
      ensures request == SearchRequest(query)
      ensures (Results(), refresh) == AfterSearch(old(Results()), query, response, loggedIn)
      ensures loading == (old(loading) && request.None?)
    {
      request := SearchRequest(query);
      refresh := false;
      if request.None? {
        return;
      }
      refresh := ApplySearchResponse(query, response, loggedIn);
    }

    /**
     * The suggestion list after the query was set, `oldQuery` and `oldFiltered`
     * being the query and the list before: a changed, non-blank query reruns
     * the suggestion effect; otherwise the effect does not run (or finds the
     * query blank), so the list is kept, hidden, for a later focus to show.
     */
    ghost predicate SuggestionsAfter(oldQuery: string, oldFiltered: seq<CatalogItem>)
      reads this`searchQuery, this`autocompleteItems, this`filteredSuggestions, this`showSuggestions
    {
      (searchQuery != oldQuery && !IsBlank(searchQuery) ==>
        filteredSuggestions == Suggestions(autocompleteItems, searchQuery) && showSuggestions == (filteredSuggestions != []))
      && (searchQuery == oldQuery || IsBlank(searchQuery) ==> filteredSuggestions == oldFiltered && !showSuggestions)
    }

    /**
     * The first half of choosing a suggestion: the query becomes the item's
     * name, the list is hidden, and the suggestion effect runs again when the
     * query changed. An item of the catalog matches its own name, so the
     * list it was chosen from opens again.
     */
    method ChooseQuery(item: CatalogItem)
      requires Valid()
      modifies this`searchQuery, this`showSuggestions, this`filteredSuggestions
      ensures Valid() && searchQuery == item.itemName
      ensures SuggestionsAfter(old(searchQuery), old(filteredSuggestions))
      ensures searchQuery != old(searchQuery) && !IsBlank(searchQuery) && item in autocompleteItems ==> showSuggestions
    {
      var changed := item.itemName != searchQuery;
      searchQuery := item.itemName;
      showSuggestions := false;
      if changed {
        FilterSuggestions();
        if item in autocompleteItems {
          OwnNameIsSuggested(autocompleteItems, item);
        }
      }
    }

    /**
     * Choosing a suggestion: `ChooseQuery`, then the search for the item's
     * name. The suggestion effect runs on the re-render, before the search
     * answers; the two touch different parts of the state.
     */
    method SelectSuggestion(item: CatalogItem, response: SearchResponse, loggedIn: bool)
      returns (request: Option<string>, refresh: bool)
      requires Valid()
      modifies this`searchQuery, this`showSuggestions, this`filteredSuggestions
      modifies this`modDetails, this`orders, this`selectedMod, this`alertPrice, this`loading
      ensures Valid()
      ensures searchQuery == item.itemName && request == SearchRequest(item.itemName)
      ensures (Results(), refresh) == AfterSearch(old(Results()), item.itemName, response, loggedIn)
      ensures loading == (old(loading) && request.None?)
      ensures SuggestionsAfter(old(searchQuery), old(filteredSuggestions))
      ensures searchQuery != old(searchQuery) && !IsBlank(searchQuery) && item in autocompleteItems ==> showSuggestions
    {
      ChooseQuery(item);
      request, refresh := PerformSearch(item.itemName, response, loggedIn);
    }

    /**
     * Enter in the search box, unless a search is running: the first shown
     * suggestion is chosen when the list is open, otherwise the query as typed
     * is searched.
     */
    method PressEnter(response: SearchResponse, loggedIn: bool) returns (request: Option<string>, refresh: bool)
      requires Valid()
      modifies this`searchQuery, this`showSuggestions, this`filteredSuggestions
      modifies this`modDetails, this`orders, this`selectedMod, this`alertPrice, this`loading
      ensures Valid()
      ensures old(loading) ==>
        request.None? && !refresh && loading && searchQuery == old(searchQuery) && Results() == old(Results())
        && filteredSuggestions == old(filteredSuggestions) && showSuggestions == old(showSuggestions)
      ensures !old(loading) ==> !loading
      ensures !old(loading) && old(showSuggestions) ==>
        searchQuery == old(filteredSuggestions)[0].itemName && request == SearchRequest(searchQuery)
        && (Results(), refresh) == AfterSearch(old(Results()), searchQuery, response, loggedIn)
      ensures !old(loading) && old(showSuggestions) ==> SuggestionsAfter(old(searchQuery), old(filteredSuggestions))
      ensures !old(loading) && !old(showSuggestions) ==>
        searchQuery == old(searchQuery) && request == SearchRequest(searchQuery)
        && (Results(), refresh) == AfterSearch(old(Results()), searchQuery, response, loggedIn)
        && filteredSuggestions == old(filteredSuggestions) && !showSuggestions
    {
      request, refresh := None, false;
      if loading {
        return;
      }
      if showSuggestions && |filteredSuggestions| > 0 {
        request, refresh := SelectSuggestion(filteredSuggestions[0], response, loggedIn);
      } else {
        request, refresh := PerformSearch(searchQuery, response, loggedIn);
      }
    }

    /** The price field is edited. */
    method SetAlertPrice(p: PriceInput)
      requires Valid()
      modifies this`alertPrice
      ensures Valid() && alertPrice == p
    {
      alertPrice := p;
    }

    /**
     * `createAlert()` given whether the server accepted it: nothing is sent
     * unless the user is logged in and the guard accepts the price field;
     * after a successful creation the field is cleared and the notifications
     * are refreshed (`refresh`, a second later in the source).
     */
    method CreateAlert(loggedIn: bool, accepted: bool) returns (request: Option<NewAlertRequest>, refresh: bool)
      requires Valid()
      modifies this`alertPrice, this`creatingAlert
      ensures Valid()
      ensures request == AlertRequest(loggedIn, old(alertPrice), selectedMod, modDetails)
      ensures refresh == (request.Some? && accepted)
      ensures alertPrice == if refresh then Blank else old(alertPrice)
      ensures creatingAlert == if request.Some? then false else old(creatingAlert)
    {
      request := AlertRequest(loggedIn, alertPrice, selectedMod, modDetails);
      refresh := false;
      if request.None? {
        return;
      }
      creatingAlert := true;
      if accepted {
        alertPrice := Blank;
        refresh := true;
      }
      creatingAlert := false;
    }
  }
}
