/** Fetching a Microsoft Graph collection page by page.

    The remote side is a function from URLs to JSON replies, and resolving a link against a
    base is left to the URL library. A fragment is never sent and plays no part in
    resolution, so both take canonical URLs. The chain of an initial URL is what following
    `nextLink` (section 4.6.5 of OData JSON Format 4.01) gives, without limits or checks.
  */
module Paging {
  import opened Common
  import opened Json

  datatype Origin = Origin(scheme: string, host: Option<string>, port: Option<int>)

  datatype Url = Url(origin: Origin, location: string, fragment: Option<string>)

  function Canonical(u: Url): Url {
    u.(fragment := None)
  }

  datatype Web = Web(
    fetch: Url -> Result<Value, string>,
    trim: string -> string,
    resolve: (Url, string) -> Option<Url>)

  datatype PageError =
    | RequestFailed(message: string)
    | NoCollection
    | BadCollection(field: string)
    | BadNextLink
    | ForeignOrigin(origin: Origin)

  datatype PagingError = PageFailed(error: PageError) | PageLoop(at: Url) | BadLimit(field: string)

  datatype Collection = Collection(items: seq<Value>, snapshotComplete: bool)

  // ---------------------------------------------------------------- reading one reply

  const COLLECTION_FIELDS: seq<string> := ["value", "items", "events", "messages"]
  const NEXT_LINK_FIELDS: seq<string> := ["@odata.nextLink", "odata.nextLink", "nextLink"]

  /** The first of `names` the reply has. */
  function FirstPresent(reply: Value, names: seq<string>): Option<(string, Value)> {
    if names == [] then None
    else if Get(reply, names[0]).Some? then Some((names[0], Get(reply, names[0]).value))
    else FirstPresent(reply, names[1..])
  }

  function CollectionItems(reply: Value): Result<seq<Value>, PageError> {
    if reply.Array? then Ok(reply.items)
    else
      match FirstPresent(reply, COLLECTION_FIELDS)
      case None => Err(NoCollection)
      case Some((name, value)) => if value.Array? then Ok(value.items) else Err(BadCollection(name))
  }

  function NextLink(web: Web, reply: Value, current: Url, initial: Url): Result<Option<Url>, PageError> {
    match FirstPresent(reply, NEXT_LINK_FIELDS)
    case None => Ok(None)
    case Some((_, link)) =>
      if link.Null? then Ok(None)
      else if !link.String? || web.trim(link.s) == "" then Err(BadNextLink)
      else
        match web.resolve(Canonical(current), web.trim(link.s))
        case None => Err(BadNextLink)
        case Some(next) =>
          if next.origin != initial.origin then Err(ForeignOrigin(next.origin)) else Ok(Some(Canonical(next)))
  }

  datatype Page = Page(items: seq<Value>, next: Option<Url>)

  function Load(web: Web, initial: Url, url: Url): Result<Page, PageError> {
    match web.fetch(Canonical(url))
    case Err(message) => Err(RequestFailed(message))
    case Ok(reply) =>
      match CollectionItems(reply)
      case Err(e) => Err(e)
      case Ok(items) =>
        match NextLink(web, reply, url, initial)
        case Err(e) => Err(e)
        case Ok(next) => Ok(Page(items, next))
  }

  function PaginationLimits(maxPages: Option<nat>, maxItems: Option<nat>): (r: Result<(nat, nat), PagingError>)
    ensures r.Ok? ==> 1 <= r.value.0 <= 100 && 1 <= r.value.1 <= 10_000
    ensures r.Ok? <==>
              (maxPages.Some? ==> 1 <= maxPages.value <= 100) && (maxItems.Some? ==> 1 <= maxItems.value <= 10_000)
    ensures r.Ok? ==> if maxPages.Some? then r.value.0 == maxPages.value else r.value.0 == 20
    ensures r.Ok? ==> if maxItems.Some? then r.value.1 == maxItems.value else r.value.1 == 1_000
    ensures r.Err? ==> r.error == BadLimit(if maxPages.Some? && !(1 <= maxPages.value <= 100) then "max_pages" else "max_items")
  {
    var pages := if maxPages.Some? then maxPages.value else 20;
    var items := if maxItems.Some? then maxItems.value else 1_000;
    if !(1 <= pages <= 100) then Err(BadLimit("max_pages"))
    else if !(1 <= items <= 10_000) then Err(BadLimit("max_items"))
    else Ok((pages, items))
  }

  function PageLoader(web: Web, initial: Url): Url -> Result<Page, PageError> {
    (url: Url) => Load(web, initial, url)
  }

  // ---------------------------------------------------------------- the chain of pages

  type Loader = Url -> Result<Page, PageError>

  /** The URL of page `k`, if the chain gets that far. */
  function UrlAt(load: Loader, initial: Url, k: nat): Option<Url>
    decreases k, 0
  {
    if k == 0 then Some(initial)
    else
      match PageAt(load, initial, k - 1)
      case Ok(page) => page.next
      case Err(_) => None
  }

  function PageAt(load: Loader, initial: Url, k: nat): Result<Page, PageError>
    decreases k, 1
  {
    match UrlAt(load, initial, k)
    case None => Err(NoCollection)
    case Some(url) => load(url)
  }

  predicate Loads(load: Loader, initial: Url, n: nat) {
    forall k :: 0 <= k < n ==> UrlAt(load, initial, k).Some? && PageAt(load, initial, k).Ok?
  }

  /** The items of the first `n` pages. */
  function ItemsOf(load: Loader, initial: Url, n: nat): seq<Value>
    requires Loads(load, initial, n)
  {
    if n == 0 then [] else ItemsOf(load, initial, n - 1) + PageAt(load, initial, n - 1).value.items
  }

  /** The chain has exactly `n` pages. */
  predicate EndsAfter(load: Loader, initial: Url, n: nat) {
    n >= 1 && Loads(load, initial, n) && PageAt(load, initial, n - 1).value.next.None?
  }

  function Take(items: seq<Value>, n: nat): (taken: seq<Value>)
    ensures taken <= items && |taken| == Min(n, |items|)
  {
    items[..if n < |items| then n else |items|]
  }

  /** Every page before the `n`th left room for more items and a next link. */
  predicate GoesOn(load: Loader, initial: Url, n: nat, maxItems: nat) {
    forall k :: 1 <= k < n ==>
      && Loads(load, initial, k)
      && |ItemsOf(load, initial, k)| < maxItems
      && PageAt(load, initial, k - 1).value.next.Some?
  }

  /** The canonical URLs of the first `n` pages. */
  ghost function Requests(load: Loader, initial: Url, n: nat): seq<Url>
    requires forall k :: 0 <= k < n ==> UrlAt(load, initial, k).Some?
  {
    seq(n, k requires 0 <= k < n => Canonical(UrlAt(load, initial, k).value))
  }

  lemma ElementsGrow(urls: seq<Url>, url: Url)
    ensures Elements(urls + [url]) == Elements(urls) + {url}
  {
    var longer := urls + [url];
    assert longer[|urls|] == url && forall i :: 0 <= i < |urls| ==> longer[i] == urls[i];
    assert Elements(longer) <= Elements(urls) + {url};
    assert Elements(urls) + {url} <= Elements(longer);
  }

  predicate NoRepeats(urls: seq<Url>) {
    forall i, j :: 0 <= i < j < |urls| ==> urls[i] != urls[j]
  }

  /** What a fetch that made `n` requests and answered `r` has established. */
  ghost predicate Explained(load: Loader, initial: Url, maxPages: nat, maxItems: nat,
                            n: nat, r: Result<Collection, PagingError>)
  {
    && n <= maxPages && (n == 0 <==> maxPages == 0)
    && (forall k :: 0 <= k < n ==> UrlAt(load, initial, k).Some?)
    && NoRepeats(Requests(load, initial, n))
    && GoesOn(load, initial, n, maxItems)
    && match r
       case Ok(c) =>
         && Loads(load, initial, n)
         && var all := ItemsOf(load, initial, n);
            && c.items == Take(all, maxItems)
            && (c.snapshotComplete <==> EndsAfter(load, initial, n) && |all| <= maxItems)
            && (!c.snapshotComplete ==> |c.items| == maxItems || n == maxPages)
       case Err(PageLoop(at)) =>
         && n >= 1 && Loads(load, initial, n)
         && PageAt(load, initial, n - 1).value.next == Some(at)
         && Canonical(at) in Requests(load, initial, n)
       case Err(PageFailed(e)) =>
         n >= 1 && PageAt(load, initial, n - 1) == Err(e)
       case Err(BadLimit(_)) => false
  }

  lemma Arrived(load: Loader, initial: Url, k: nat, url: Url, page: Page)
    requires Loads(load, initial, k) && UrlAt(load, initial, k) == Some(url)
    requires load(url) == Ok(page)
    ensures Loads(load, initial, k + 1)
    ensures PageAt(load, initial, k) == Ok(page)
    ensures ItemsOf(load, initial, k + 1) == ItemsOf(load, initial, k) + page.items
    ensures UrlAt(load, initial, k + 1) == page.next
  {
    forall i | 0 <= i < k + 1 ensures UrlAt(load, initial, i).Some? && PageAt(load, initial, i).Ok? {
    }
  }

  lemma TakeAppend(xs: seq<Value>, ys: seq<Value>, n: nat)
    requires |xs| <= n
    ensures xs + Take(ys, n - |xs|) == Take(xs + ys, n)
  {
  }

  lemma RequestsGrow(load: Loader, initial: Url, n: nat)
    requires forall k :: 0 <= k < n + 1 ==> UrlAt(load, initial, k).Some?
    ensures Requests(load, initial, n + 1)
              == Requests(load, initial, n) + [Canonical(UrlAt(load, initial, n).value)]
  {
  }

  /** The state at the top of the loop, after `n` pages that all led on. */
  ghost predicate Underway(load: Loader, initial: Url, maxPages: nat, maxItems: nat,
                           n: nat, current: Url, visited: set<Url>, items: seq<Value>)
  {
    && UrlAt(load, initial, n) == Some(current)
    && Loads(load, initial, n) && items == ItemsOf(load, initial, n)
    && GoesOn(load, initial, n + 1, maxItems)
    && (n >= 1 ==> n < maxPages && |items| < maxItems)
    && visited == Elements(Requests(load, initial, n))
    && Canonical(current) !in visited
    && NoRepeats(Requests(load, initial, n))
  }

  /** Requesting the current page keeps what Explained needs of every answer. */
  lemma OneMoreRequest(load: Loader, initial: Url, maxPages: nat, maxItems: nat,
                       n: nat, current: Url, visited: set<Url>, items: seq<Value>)
    requires Underway(load, initial, maxPages, maxItems, n, current, visited, items)
    ensures forall k :: 0 <= k < n + 1 ==> UrlAt(load, initial, k).Some?
    ensures NoRepeats(Requests(load, initial, n + 1))
    ensures GoesOn(load, initial, n + 1, maxItems)
    ensures visited + {Canonical(current)} == Elements(Requests(load, initial, n + 1))
    ensures PageAt(load, initial, n) == load(current)
  {
    RequestsGrow(load, initial, n);
    ElementsGrow(Requests(load, initial, n), Canonical(current));
  }

  /** Moving on to a new link restores the loop state. */
  lemma MovesOn(load: Loader, initial: Url, maxPages: nat, maxItems: nat,
                n: nat, current: Url, visited: set<Url>, items: seq<Value>, page: Page)
    requires Underway(load, initial, maxPages, maxItems, n, current, visited, items)
    requires load(current) == Ok(page) && page.next.Some?
    requires Canonical(page.next.value) !in visited + {Canonical(current)}
    requires n + 1 < maxPages && |items + page.items| < maxItems
    ensures Underway(load, initial, maxPages, maxItems, n + 1, page.next.value,
                     visited + {Canonical(current)}, items + page.items)
  {
    OneMoreRequest(load, initial, maxPages, maxItems, n, current, visited, items);
    Arrived(load, initial, n, current, page);
  }

  lemma StopsOnError(load: Loader, initial: Url, maxPages: nat, maxItems: nat,
                     n: nat, current: Url, visited: set<Url>, items: seq<Value>)
    requires Underway(load, initial, maxPages, maxItems, n, current, visited, items)
    requires n < maxPages && load(current).Err?
    ensures Explained(load, initial, maxPages, maxItems, n + 1, Err(PageFailed(load(current).error)))
  {
    OneMoreRequest(load, initial, maxPages, maxItems, n, current, visited, items);
  }

  lemma StopsOnLoop(load: Loader, initial: Url, maxPages: nat, maxItems: nat,
                    n: nat, current: Url, visited: set<Url>, items: seq<Value>, page: Page)
    requires Underway(load, initial, maxPages, maxItems, n, current, visited, items)
    requires n < maxPages && load(current) == Ok(page) && page.next.Some?
    requires Canonical(page.next.value) in visited + {Canonical(current)}
    ensures Explained(load, initial, maxPages, maxItems, n + 1, Err(PageLoop(page.next.value)))
  {
    OneMoreRequest(load, initial, maxPages, maxItems, n, current, visited, items);
    Arrived(load, initial, n, current, page);
    assert Canonical(page.next.value) in Elements(Requests(load, initial, n + 1));
  }

  lemma StopsWithItems(load: Loader, initial: Url, maxPages: nat, maxItems: nat,
                       n: nat, current: Url, visited: set<Url>, items: seq<Value>, page: Page)
    requires Underway(load, initial, maxPages, maxItems, n, current, visited, items)
    requires n < maxPages && load(current) == Ok(page)
    requires page.next.None? || |items + page.items| >= maxItems || n + 1 == maxPages
    ensures Explained(load, initial, maxPages, maxItems, n + 1,
                      Ok(Collection(items + Take(page.items, maxItems - |items|),
                                    page.next.None? && |page.items| <= maxItems - |items|)))
  {
    OneMoreRequest(load, initial, maxPages, maxItems, n, current, visited, items);
    Arrived(load, initial, n, current, page);
    TakeAppend(items, page.items, maxItems);
  }

  datatype Turn = Stop(r: Result<Collection, PagingError>) | Continue(next: Url, items: seq<Value>)

  /** The loop body: request one page and either answer or move on. */
  method TurnPage(load: Loader, initial: Url, maxPages: nat, maxItems: nat,
                  pageNumber: nat, current: Url, visited: set<Url>, items: seq<Value>)
    returns (turn: Turn)
    requires 1 <= pageNumber <= maxPages
    requires Underway(load, initial, maxPages, maxItems, pageNumber - 1, current, visited, items)
    ensures turn.Stop? ==> Explained(load, initial, maxPages, maxItems, pageNumber, turn.r)
    ensures turn.Continue? ==>
      Underway(load, initial, maxPages, maxItems, pageNumber, turn.next,
               visited + {Canonical(current)}, turn.items)
  {
    if Canonical(current) in visited {
      assert false; // a repeated link was already refused when it was read
    }
    var n := pageNumber - 1;
    var page := load(current);
    if page.Err? {
      StopsOnError(load, initial, maxPages, maxItems, n, current, visited, items);
      turn := Stop(Err(PageFailed(page.error)));
    } else {
      var remaining := maxItems - |items|;
      var pageWasTruncated := |page.value.items| > remaining;
      var collected := items + Take(page.value.items, remaining);
      var next := page.value.next;
      if next.Some? && Canonical(next.value) in visited + {Canonical(current)} {
        StopsOnLoop(load, initial, maxPages, maxItems, n, current, visited, items, page.value);
        turn := Stop(Err(PageLoop(next.value)));
      } else if pageWasTruncated {
        StopsWithItems(load, initial, maxPages, maxItems, n, current, visited, items, page.value);
        turn := Stop(Ok(Collection(collected, false)));
      } else if next.None? {
        StopsWithItems(load, initial, maxPages, maxItems, n, current, visited, items, page.value);
        turn := Stop(Ok(Collection(collected, true)));
      } else if |collected| >= maxItems || pageNumber >= maxPages {
        StopsWithItems(load, initial, maxPages, maxItems, n, current, visited, items, page.value);
        turn := Stop(Ok(Collection(collected, false)));
      } else {
        MovesOn(load, initial, maxPages, maxItems, n, current, visited, items, page.value);
        turn := Continue(next.value, collected);
      }
    }
  }

  /** Follows the chain under both limits; `n` counts the requests made. */
  method FollowChain(load: Loader, initial: Url, maxPages: nat, maxItems: nat)
    returns (r: Result<Collection, PagingError>, n: nat)
    ensures Explained(load, initial, maxPages, maxItems, n, r)
  {
    var current := initial;
    var visited: set<Url> := {};
    var items: seq<Value> := [];
    for pageNumber := 1 to maxPages + 1
      invariant Underway(load, initial, maxPages, maxItems, pageNumber - 1, current, visited, items)
    {
      var turn := TurnPage(load, initial, maxPages, maxItems, pageNumber, current, visited, items);
      if turn.Stop? {
        return turn.r, pageNumber;
      }
      visited, items, current := visited + {Canonical(current)}, turn.items, turn.next;
    }
    return Ok(Collection(items, false)), maxPages;
  }

  method FetchCollection(web: Web, initial: Url, maxPages: nat, maxItems: nat)
    returns (r: Result<Collection, PagingError>, n: nat)
    ensures Explained(PageLoader(web, initial), initial, maxPages, maxItems, n, r)
    ensures (r.Ok? && r.value.snapshotComplete) <==>
              exists m :: FitsLimits(PageLoader(web, initial), initial, maxPages, maxItems, m)
    ensures forall m :: FitsLimits(PageLoader(web, initial), initial, maxPages, maxItems, m) ==>
              r.Ok? && r.value.items == ItemsOf(PageLoader(web, initial), initial, m)
    ensures r.Err? && r.error.PageLoop? ==> forall m :: !EndsAfter(PageLoader(web, initial), initial, m)
  {
    var load := PageLoader(web, initial);
    r, n := FollowChain(load, initial, maxPages, maxItems);
    LoaderIgnoresFragments(web, initial);
    CompleteExactlyWhenChainFits(load, initial, maxPages, maxItems, n, r);
    if r.Err? && r.error.PageLoop? {
      forall m ensures !EndsAfter(load, initial, m) {
        LoopMeansEndless(load, initial, maxPages, maxItems, n, r, m);
      }
    }
  }

  // ---------------------------------------------------------------- what the answer means

  /** The server never sees a fragment. */
  ghost predicate IgnoresFragments(load: Loader) {
    forall u, v :: Canonical(u) == Canonical(v) ==> load(u) == load(v)
  }

  lemma LoaderIgnoresFragments(web: Web, initial: Url)
    ensures IgnoresFragments(PageLoader(web, initial))
  {
  }

  /** Page `k` exists, loads, and leads on. */
  predicate Going(load: Loader, initial: Url, k: nat) {
    UrlAt(load, initial, k).Some? && PageAt(load, initial, k).Ok? && PageAt(load, initial, k).value.next.Some?
  }

  predicate SameRequest(load: Loader, initial: Url, a: nat, b: nat) {
    && UrlAt(load, initial, a).Some? && UrlAt(load, initial, b).Some?
    && Canonical(UrlAt(load, initial, a).value) == Canonical(UrlAt(load, initial, b).value)
  }

  /** Equal requests get equal pages, and lead on equally. */
  lemma SamePage(load: Loader, initial: Url, a: nat, b: nat)
    requires IgnoresFragments(load) && SameRequest(load, initial, a, b) && Going(load, initial, b)
    ensures Going(load, initial, a) && SameRequest(load, initial, a + 1, b + 1)
  {
    assert PageAt(load, initial, a) == PageAt(load, initial, b);
  }

  /** Once request `n` repeats request `i`, every later one repeats an earlier one. */
  lemma {:induction false} RepeatsForever(load: Loader, initial: Url, i: nat, n: nat, k: nat)
    requires IgnoresFragments(load) && i < n && SameRequest(load, initial, n, i)
    requires forall j: nat :: j < n ==> Going(load, initial, j)
    ensures Going(load, initial, k)
    ensures k >= n ==> SameRequest(load, initial, k, k - (n - i))
    decreases k
  {
    if k >= n {
      var earlier := k - (n - i);
      RepeatsForever(load, initial, i, n, earlier);
      if k > n {
        RepeatsForever(load, initial, i, n, k - 1);
        RepeatsForever(load, initial, i, n, earlier - 1);
        SamePage(load, initial, k - 1, earlier - 1);
      }
      SamePage(load, initial, k, earlier);
    }
  }

  /** A loop error is never spurious: the chain really has no end. */
  lemma LoopMeansEndless(load: Loader, initial: Url, maxPages: nat, maxItems: nat,
                         n: nat, r: Result<Collection, PagingError>, m: nat)
    requires IgnoresFragments(load) && Explained(load, initial, maxPages, maxItems, n, r)
    requires r.Err? && r.error.PageLoop?
    ensures !EndsAfter(load, initial, m)
  {
    var i :| 0 <= i < n && Requests(load, initial, n)[i] == Canonical(r.error.at);
    forall j: nat | j < n ensures Going(load, initial, j) {
      if j < n - 1 {
        assert Loads(load, initial, j + 1);
      }
    }
    assert UrlAt(load, initial, n) == Some(r.error.at);
    assert SameRequest(load, initial, n, i);
    if m >= 1 {
      RepeatsForever(load, initial, i, n, m - 1);
    }
  }

  /** The chain ends within the limits: after `m` pages, with no page but the last
      filling the item limit, and without exceeding it. */
  predicate FitsLimits(load: Loader, initial: Url, maxPages: nat, maxItems: nat, m: nat) {
    && m <= maxPages && EndsAfter(load, initial, m)
    && |ItemsOf(load, initial, m)| <= maxItems
    && forall k :: 1 <= k < m ==> Loads(load, initial, k) && |ItemsOf(load, initial, k)| < maxItems
  }

  /** snapshot_complete is reported exactly for the chains that end within the limits,
      and then the items are the whole chain. */
  lemma CompleteExactlyWhenChainFits(load: Loader, initial: Url, maxPages: nat, maxItems: nat,
                                     n: nat, r: Result<Collection, PagingError>)
    requires IgnoresFragments(load) && Explained(load, initial, maxPages, maxItems, n, r)
    ensures (r.Ok? && r.value.snapshotComplete) <==>
              exists m :: FitsLimits(load, initial, maxPages, maxItems, m)
    ensures forall m :: FitsLimits(load, initial, maxPages, maxItems, m) ==>
              r.Ok? && r.value.items == ItemsOf(load, initial, m)
  {
    if r.Ok? && r.value.snapshotComplete {
      assert FitsLimits(load, initial, maxPages, maxItems, n);
    }
    forall m | FitsLimits(load, initial, maxPages, maxItems, m)
      ensures n == m && r.Ok? && r.value.snapshotComplete && r.value.items == ItemsOf(load, initial, m)
    {
      FittingChainIsFetched(load, initial, maxPages, maxItems, n, r, m);
    }
  }

  lemma FittingChainIsFetched(load: Loader, initial: Url, maxPages: nat, maxItems: nat,
                              n: nat, r: Result<Collection, PagingError>, m: nat)
    requires IgnoresFragments(load) && Explained(load, initial, maxPages, maxItems, n, r)
    requires FitsLimits(load, initial, maxPages, maxItems, m)
    ensures n == m && r.Ok? && r.value.snapshotComplete && r.value.items == ItemsOf(load, initial, m)
  {
    if r.Err? && r.error.PageLoop? {
      LoopMeansEndless(load, initial, maxPages, maxItems, n, r, m);
    }
    assert n < m ==> UrlAt(load, initial, n).Some?;
  }

  // ---------------------------------------------------------------- what a reply says

  /** The array the reply carries: itself, or the first of these fields that is there. */
  ghost predicate Carries(reply: Value, items: seq<Value>) {
    || reply == Array(items)
    || Get(reply, "value") == Some(Array(items))
    || (Get(reply, "value").None? && Get(reply, "items") == Some(Array(items)))
    || (Get(reply, "value").None? && Get(reply, "items").None? && Get(reply, "events") == Some(Array(items)))
    || (Get(reply, "value").None? && Get(reply, "items").None? && Get(reply, "events").None?
        && Get(reply, "messages") == Some(Array(items)))
  }

  /** The link the reply carries: the first of these fields that is there. */
  function LinkIn(reply: Value): Option<Value> {
    if Get(reply, "@odata.nextLink").Some? then Get(reply, "@odata.nextLink")
    else if Get(reply, "odata.nextLink").Some? then Get(reply, "odata.nextLink")
    else Get(reply, "nextLink")
  }

  /** The chain goes on: the link is a string that is not blank and resolves, against the
      request, to `next` on the origin of the first request. */
  ghost predicate LeadsTo(web: Web, initial: Url, url: Url, link: Option<Value>, next: Url) {
    && link.Some? && link.value.String? && web.trim(link.value.s) != ""
    && web.resolve(url.(fragment := None), web.trim(link.value.s)) == Some(next)
    && next.origin.scheme == initial.origin.scheme && next.origin.host == initial.origin.host
    && next.origin.port == initial.origin.port
  }

  lemma CarriesExactly(reply: Value, items: seq<Value>)
    ensures CollectionItems(reply) == Ok(items) <==> Carries(reply, items)
  {
    var names := COLLECTION_FIELDS;
    assert names[1..] == ["items", "events", "messages"] && names[1..][1..] == ["events", "messages"];
    assert names[1..][1..][1..] == ["messages"] && names[1..][1..][1..][1..] == [];
    assert FirstPresent(reply, ["messages"]) ==
           if Get(reply, "messages").Some? then Some(("messages", Get(reply, "messages").value)) else None;
    assert FirstPresent(reply, ["events", "messages"]) ==
           if Get(reply, "events").Some? then Some(("events", Get(reply, "events").value)) else FirstPresent(reply, ["messages"]);
    assert FirstPresent(reply, names[1..]) ==
           if Get(reply, "items").Some? then Some(("items", Get(reply, "items").value))
           else FirstPresent(reply, ["events", "messages"]);
  }

  lemma LinkIsRead(reply: Value)
    ensures var first := FirstPresent(reply, NEXT_LINK_FIELDS);
            if first.Some? then LinkIn(reply) == Some(first.value.1) else LinkIn(reply).None?
  {
    var names := NEXT_LINK_FIELDS;
    assert names[1..] == ["odata.nextLink", "nextLink"] && names[1..][1..] == ["nextLink"] && names[1..][1..][1..] == [];
    assert FirstPresent(reply, ["nextLink"]) ==
           if Get(reply, "nextLink").Some? then Some(("nextLink", Get(reply, "nextLink").value)) else None;
    assert FirstPresent(reply, names[1..]) ==
           if Get(reply, "odata.nextLink").Some? then Some(("odata.nextLink", Get(reply, "odata.nextLink").value))
           else FirstPresent(reply, ["nextLink"]);
  }

  /** A page is loaded exactly when the server answers, the answer carries an array, and it
      either carries no link or null, which ends the chain, or a link that leads on within
      the origin; any other link is an error. */
  lemma PageIsWhatTheReplySays(web: Web, initial: Url, url: Url, page: Page)
    ensures Load(web, initial, url) == Ok(page) <==>
              && web.fetch(url.(fragment := None)).Ok?
              && var reply := web.fetch(url.(fragment := None)).value;
                 && Carries(reply, page.items)
                 && match page.next
                    case None => LinkIn(reply).None? || LinkIn(reply).value.Null?
                    case Some(next) =>
                      exists u :: LeadsTo(web, initial, url, LinkIn(reply), u) && next == u.(fragment := None)
  {
    if web.fetch(Canonical(url)).Ok? {
      var reply := web.fetch(Canonical(url)).value;
      CarriesExactly(reply, page.items);
      LinkIsRead(reply);
      LinkLeadsOn(web, reply, url, initial, page.next);
    }
  }

  lemma LinkLeadsOn(web: Web, reply: Value, url: Url, initial: Url, next: Option<Url>)
    ensures NextLink(web, reply, url, initial) == Ok(next) <==>
              match next
              case None => LinkIn(reply).None? || LinkIn(reply).value.Null?
              case Some(n) => exists u :: LeadsTo(web, initial, url, LinkIn(reply), u) && n == u.(fragment := None)
  {
    LinkIsRead(reply);
    var link := LinkIn(reply);
    if link.Some? && link.value.String? && web.trim(link.value.s) != "" {
      var found := web.resolve(Canonical(url), web.trim(link.value.s));
      if found.Some? && found.value.origin == initial.origin {
        assert LeadsTo(web, initial, url, link, found.value);
      }
    }
  }

  /** Every request of the chain goes to the origin of the first. */
  lemma {:induction false} ChainStaysOnOrigin(web: Web, initial: Url, k: nat)
    requires UrlAt(PageLoader(web, initial), initial, k).Some?
    ensures UrlAt(PageLoader(web, initial), initial, k).value.origin == initial.origin
  {
    if k > 0 {
      var load := PageLoader(web, initial);
      var page := PageAt(load, initial, k - 1).value;
      var url := UrlAt(load, initial, k - 1).value;
      assert Load(web, initial, url) == Ok(page);
      PageIsWhatTheReplySays(web, initial, url, page);
    }
  }
}
