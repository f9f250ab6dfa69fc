/** The two loops of `Code/Scraper3.py` that walk the site: the pagination
    walk that collects a category's product addresses, and the reading of the
    category sidebar of the home page. */
module Crawl {
  import opened Wrappers
  import opened Text
  import opened PageView
  import Scraper3

  // ---------------------------------------------------------------------
  // category_product_urls
  // ---------------------------------------------------------------------

  /** The absolute addresses of a listing page's product links, in document
      order. */
  function PageProductUrls(page: ListingPage, pageUrl: string, resolve: Resolver): (r: seq<string>)
    ensures |r| == |page.productHrefs|
    ensures forall k | 0 <= k < |r| :: r[k] == resolve(pageUrl, page.productHrefs[k])
  {
    seq(|page.productHrefs|, k requires 0 <= k < |page.productHrefs| => resolve(pageUrl, page.productHrefs[k]))
  }

  /** The cursor after a page: its resolved `li.next` link, or the empty
      text when it has none. The script stores `None` there; `while next_url`
      treats `None` and the empty text alike, so one value stands for both. */
  function NextCursor(page: ListingPage, pageUrl: string, resolve: Resolver): string {
    match page.nextHref
    case None => ""
    case Some(href) => resolve(pageUrl, href)
  }

  /** How a walk that stopped ended: with the collected addresses and the
      pages fetched, or with the address whose fetch failed. */
  datatype Outcome = Finished(urls: seq<string>, visited: seq<string>) | Failed(url: string)

  /** The walk from `cursor` within `fuel` page fetches; `None` when it has
      not stopped by then. The script's loop has no bound: it ends only
      when some page has no next link. */
  function Walk(site: Site, resolve: Resolver, cursor: string, fuel: nat): Option<Outcome>
    decreases fuel
  {
    if cursor == "" then Some(Finished([], []))
    else if fuel == 0 then None
    else if cursor !in site then Some(Failed(cursor))
    else
      var page := site[cursor];
      match Walk(site, resolve, NextCursor(page, cursor, resolve), fuel - 1)
      case None => None
      case Some(Failed(u)) => Some(Failed(u))
      case Some(Finished(us, vs)) => Some(Finished(PageProductUrls(page, cursor, resolve) + us, [cursor] + vs))
  }

  /** What `category_product_urls` returns, or the exception that ends it. */
  function Collected(outcome: Outcome): Result<seq<string>, Error> {
    match outcome
    case Finished(urls, _) => Ok(urls)
    case Failed(u) => Err(FetchFailed(u))
  }

  /** `visited` is the chain of pages the walk from `start` fetches: it
      starts at `start`, every page is served, each next page is the one the
      previous page links to, and the last page links nowhere. */
  predicate IsChain(site: Site, resolve: Resolver, start: string, visited: seq<string>) {
    && (visited == [] <==> start == "")
    && (visited != [] ==> visited[0] == start)
    && (forall k | 0 <= k < |visited| :: visited[k] != "" && visited[k] in site)
    && (forall k | 0 <= k < |visited| - 1 ::
          NextCursor(site[visited[k]], visited[k], resolve) == visited[k + 1])
    && (visited != [] ==>
          NextCursor(site[visited[|visited| - 1]], visited[|visited| - 1], resolve) == "")
  }

  /** The product addresses of the pages of `visited`, page after page. */
  function FlatProducts(site: Site, resolve: Resolver, visited: seq<string>): seq<string>
    requires forall k | 0 <= k < |visited| :: visited[k] in site
    decreases |visited|
  {
    if visited == [] then []
    else PageProductUrls(site[visited[0]], visited[0], resolve) + FlatProducts(site, resolve, visited[1..])
  }

  /** A chain from a non-empty start continues as a chain from its second page. */
  lemma ChainTail(site: Site, resolve: Resolver, visited: seq<string>)
    requires |visited| >= 1 && IsChain(site, resolve, visited[0], visited)
    ensures IsChain(site, resolve, NextCursor(site[visited[0]], visited[0], resolve), visited[1..])
  {
    var tail := visited[1..];
    assert forall k | 0 <= k < |tail| :: tail[k] == visited[k + 1];
    if |visited| == 1 {
      assert tail == [];
    } else {
      assert tail[0] == visited[1];
      assert tail[|tail| - 1] == visited[|visited| - 1];
    }
  }

  /** A walk that finishes fetched exactly a chain of pages, and collected the
      product addresses of those pages in visit order. */
  lemma {:induction false} WalkFinishedIsChain(site: Site, resolve: Resolver, cursor: string, fuel: nat)
    requires Walk(site, resolve, cursor, fuel).Some? && Walk(site, resolve, cursor, fuel).value.Finished?
    ensures var o := Walk(site, resolve, cursor, fuel).value;
      && IsChain(site, resolve, cursor, o.visited)
      && |o.visited| <= fuel
      && o.urls == FlatProducts(site, resolve, o.visited)
    decreases fuel
  {
    if cursor != "" {
      WalkStep(site, resolve, cursor, fuel);
      var next := NextCursor(site[cursor], cursor, resolve);
      var rest := Walk(site, resolve, next, fuel - 1).value;
      assert rest.Finished?;
      WalkFinishedIsChain(site, resolve, next, fuel - 1);
      ChainCons(site, resolve, cursor, rest.visited);
      FlatCons(site, resolve, cursor, rest.visited);
    }
  }

  /** A walk from a served page is its products in front of the walk from
      its next link. */
  lemma WalkCons(site: Site, resolve: Resolver, cursor: string, fuel: nat, us: seq<string>, vs: seq<string>)
    requires cursor != "" && cursor in site && fuel > 0
    requires Walk(site, resolve, NextCursor(site[cursor], cursor, resolve), fuel - 1) == Some(Finished(us, vs))
    ensures Walk(site, resolve, cursor, fuel)
      == Some(Finished(PageProductUrls(site[cursor], cursor, resolve) + us, [cursor] + vs))
  {
  }

  /** The walk from a served page whose next link's walk covers `tail`
      covers the page followed by `tail`. */
  lemma ChainStepWalked(site: Site, resolve: Resolver, start: string, tail: seq<string>, fuel: nat)
    requires start != "" && start in site && fuel > 0
    requires forall k | 0 <= k < |tail| :: tail[k] in site
    requires Walk(site, resolve, NextCursor(site[start], start, resolve), fuel - 1)
      == Some(Finished(FlatProducts(site, resolve, tail), tail))
    ensures forall k | 0 <= k < |[start] + tail| :: ([start] + tail)[k] in site
    ensures Walk(site, resolve, start, fuel)
      == Some(Finished(FlatProducts(site, resolve, [start] + tail), [start] + tail))
  {
    WalkCons(site, resolve, start, fuel, FlatProducts(site, resolve, tail), tail);
    FlatCons(site, resolve, start, tail);
  }

  /** A served page in front of the chain from its next link is a chain. */
  lemma ChainCons(site: Site, resolve: Resolver, cursor: string, rest: seq<string>)
    requires cursor != "" && cursor in site
    requires IsChain(site, resolve, NextCursor(site[cursor], cursor, resolve), rest)
    ensures IsChain(site, resolve, cursor, [cursor] + rest)
  {
    var vs := [cursor] + rest;
    assert forall k | 1 <= k < |vs| :: vs[k] == rest[k - 1];
  }

  lemma FlatCons(site: Site, resolve: Resolver, cursor: string, rest: seq<string>)
    requires cursor in site && forall k | 0 <= k < |rest| :: rest[k] in site
    ensures forall k | 0 <= k < |[cursor] + rest| :: ([cursor] + rest)[k] in site
    ensures FlatProducts(site, resolve, [cursor] + rest)
      == PageProductUrls(site[cursor], cursor, resolve) + FlatProducts(site, resolve, rest)
  {
    assert ([cursor] + rest)[1..] == rest;
  }

  /** Conversely, a chain of pages within the fuel is walked to the end. */
  lemma {:induction false} ChainIsWalked(site: Site, resolve: Resolver, visited: seq<string>, fuel: nat)
    requires visited != [] ==> IsChain(site, resolve, visited[0], visited)
    requires |visited| <= fuel
    ensures forall k | 0 <= k < |visited| :: visited[k] in site
    ensures var start := if visited == [] then "" else visited[0];
      Walk(site, resolve, start, fuel) == Some(Finished(FlatProducts(site, resolve, visited), visited))
    decreases |visited|
  {
    if visited != [] {
      var start := visited[0];
      var next := NextCursor(site[start], start, resolve);
      ChainTail(site, resolve, visited);
      var tail := visited[1..];
      assert tail != [] ==> tail[0] == next;
      assert tail == [] ==> next == "";
      ChainIsWalked(site, resolve, tail, fuel - 1);
      ChainStepWalked(site, resolve, start, tail, fuel);
      assert [start] + tail == visited;
    }
  }

  /** Two positions of a finished chain hold different pages: from the end
      backwards, the last page links nowhere while every earlier one has a
      successor, and pages with different successors differ. */
  lemma {:induction false} ChainNoRepeat(site: Site, resolve: Resolver, start: string, visited: seq<string>, i: nat, j: nat)
    requires IsChain(site, resolve, start, visited)
    requires i < j < |visited|
    ensures visited[i] != visited[j]
    decreases |visited| - j
  {
    var next := (u: string) requires u in site => NextCursor(site[u], u, resolve);
    if j == |visited| - 1 {
      assert next(visited[j]) == "";
      assert next(visited[i]) == visited[i + 1] != "";
    } else {
      ChainNoRepeat(site, resolve, start, visited, i + 1, j + 1);
      assert next(visited[i]) == visited[i + 1];
      assert next(visited[j]) == visited[j + 1];
    }
  }

  /** A finished chain never visits a page twice. */
  lemma ChainDistinct(site: Site, resolve: Resolver, start: string, visited: seq<string>)
    requires IsChain(site, resolve, start, visited)
    ensures forall i, j | 0 <= i < j < |visited| :: visited[i] != visited[j]
  {
    forall i, j | 0 <= i < j < |visited|
      ensures visited[i] != visited[j]
    {
      ChainNoRepeat(site, resolve, start, visited, i, j);
    }
  }

  /** The walk has no record of visited pages: it finishes only when the
      chain of next links reaches a page without one, never looping back, and
      its result is the product addresses of that chain. */
  lemma WalkFinishes(site: Site, resolve: Resolver, start: string, fuel: nat, urls: seq<string>, visited: seq<string>)
    ensures Walk(site, resolve, start, fuel) == Some(Finished(urls, visited))
      <==> && IsChain(site, resolve, start, visited)
           && |visited| <= fuel
           && urls == FlatProducts(site, resolve, visited)
    ensures Walk(site, resolve, start, fuel) == Some(Finished(urls, visited)) ==>
      forall i, j | 0 <= i < j < |visited| :: visited[i] != visited[j]
  {
    if Walk(site, resolve, start, fuel) == Some(Finished(urls, visited)) {
      WalkFinishedIsChain(site, resolve, start, fuel);
      ChainDistinct(site, resolve, start, visited);
    }
    if IsChain(site, resolve, start, visited) && |visited| <= fuel && urls == FlatProducts(site, resolve, visited) {
      ChainIsWalked(site, resolve, visited, fuel);
    }
  }

  /** `visited` is a path of served pages from `start` along next links, and
      `cursor` is where it leads: the next link of its last page, or `start`
      itself when the path is empty. */
  predicate LeadsTo(site: Site, resolve: Resolver, start: string, visited: seq<string>, cursor: string) {
    && (forall k | 0 <= k < |visited| :: visited[k] != "" && visited[k] in site)
    && (visited != [] ==> visited[0] == start)
    && (forall k | 0 <= k < |visited| - 1 ::
          NextCursor(site[visited[k]], visited[k], resolve) == visited[k + 1])
    && cursor == (if visited == [] then start
                  else NextCursor(site[visited[|visited| - 1]], visited[|visited| - 1], resolve))
  }

  /** The walk fails at `u` if and only if a path of served pages within the
      fuel leads from the start to `u`, and `u` is an address the site does
      not serve: the failing page is the first one that cannot be fetched. */
  lemma WalkFails(site: Site, resolve: Resolver, start: string, fuel: nat, u: string)
    ensures Walk(site, resolve, start, fuel) == Some(Failed(u))
      <==> exists visited :: && LeadsTo(site, resolve, start, visited, u)
                             && |visited| < fuel && u != "" && u !in site
  {
    if Walk(site, resolve, start, fuel) == Some(Failed(u)) {
      var visited := WalkFailedPath(site, resolve, start, fuel);
      assert LeadsTo(site, resolve, start, visited, u);
    }
    if exists visited :: && LeadsTo(site, resolve, start, visited, u)
                         && |visited| < fuel && u != "" && u !in site {
      var visited :| && LeadsTo(site, resolve, start, visited, u)
                     && |visited| < fuel && u != "" && u !in site;
      PathFails(site, resolve, start, visited, u, fuel);
    }
  }

  /** The path a failed walk took to the address it could not fetch. */
  lemma {:induction false} WalkFailedPath(site: Site, resolve: Resolver, start: string, fuel: nat)
    returns (visited: seq<string>)
    requires Walk(site, resolve, start, fuel).Some? && Walk(site, resolve, start, fuel).value.Failed?
    ensures var u := Walk(site, resolve, start, fuel).value.url;
      && LeadsTo(site, resolve, start, visited, u)
      && |visited| < fuel && u != "" && u !in site
    decreases fuel
  {
    if start in site {
      var next := NextCursor(site[start], start, resolve);
      var rest := WalkFailedPath(site, resolve, next, fuel - 1);
      visited := [start] + rest;
      LeadsToCons(site, resolve, start, rest, Walk(site, resolve, start, fuel).value.url);
    } else {
      visited := [];
    }
  }

  /** A served page in front of a path from its next link is a path. */
  lemma LeadsToCons(site: Site, resolve: Resolver, start: string, rest: seq<string>, u: string)
    requires start != "" && start in site
    requires LeadsTo(site, resolve, NextCursor(site[start], start, resolve), rest, u)
    ensures LeadsTo(site, resolve, start, [start] + rest, u)
  {
    var vs := [start] + rest;
    assert forall k | 1 <= k < |vs| :: vs[k] == rest[k - 1];
  }

  /** A path continues as a path from the page its first page links to. */
  lemma LeadsToTail(site: Site, resolve: Resolver, start: string, visited: seq<string>, u: string)
    requires visited != [] && LeadsTo(site, resolve, start, visited, u)
    ensures LeadsTo(site, resolve, NextCursor(site[start], start, resolve), visited[1..], u)
  {
    var tail := visited[1..];
    assert forall k | 0 <= k < |tail| :: tail[k] == visited[k + 1];
    if |visited| > 1 {
      assert tail[0] == visited[1];
      assert tail[|tail| - 1] == visited[|visited| - 1];
    }
  }

  /** A path within the fuel to an address the site does not serve makes
      the walk fail there. */
  lemma {:induction false} PathFails(site: Site, resolve: Resolver, start: string, visited: seq<string>, u: string, fuel: nat)
    requires LeadsTo(site, resolve, start, visited, u)
    requires |visited| < fuel && u != "" && u !in site
    ensures Walk(site, resolve, start, fuel) == Some(Failed(u))
    decreases |visited|
  {
    if visited != [] {
      LeadsToTail(site, resolve, start, visited, u);
      PathFails(site, resolve, NextCursor(site[start], start, resolve), visited[1..], u, fuel - 1);
    }
  }

  /** A page whose next link leads back to itself keeps the walk going for
      ever: with any amount of fuel it has not stopped. */
  lemma {:induction false} SelfLinkNeverStops(site: Site, resolve: Resolver, url: string, fuel: nat)
    requires url != "" && url in site
    requires NextCursor(site[url], url, resolve) == url
    ensures Walk(site, resolve, url, fuel).None?
    decreases fuel
  {
    if fuel > 0 {
      SelfLinkNeverStops(site, resolve, url, fuel - 1);
    }
  }

  /** Two listing pages, the first linking to the second: the walk fetches
      both, in order, and returns the products of the first page followed by
      those of the second; with fuel for one page it has not stopped. */
  lemma TwoPageExample(site: Site, resolve: Resolver)
    requires site == map["p1" := ListingPage(["a", "b"], Some("p2")), "p2" := ListingPage(["c"], None)]
    requires forall base, href :: resolve(base, href) == href
    ensures Walk(site, resolve, "p1", 2) == Some(Finished(["a", "b", "c"], ["p1", "p2"]))
    ensures Walk(site, resolve, "p1", 1).None?
  {
    assert "p1" in site && "p2" in site && "p1" != "" && "p2" != "";
    var p1, p2 := site["p1"], site["p2"];
    assert NextCursor(p1, "p1", resolve) == "p2";
    assert NextCursor(p2, "p2", resolve) == "";
    assert PageProductUrls(p1, "p1", resolve) == ["a", "b"];
    assert PageProductUrls(p2, "p2", resolve) == ["c"];
    assert Walk(site, resolve, "", 0) == Some(Finished([], []));
    assert ["c"] + [] == ["c"] && ["p2"] + [] == ["p2"];
    assert Walk(site, resolve, "p2", 1) == Some(Finished(["c"], ["p2"]));
    assert Walk(site, resolve, "p2", 0).None?;
    assert Walk(site, resolve, "p1", 2) == Some(Finished(PageProductUrls(p1, "p1", resolve) + ["c"], ["p1"] + ["p2"]));
    assert ["a", "b"] + ["c"] == ["a", "b", "c"] && ["p1"] + ["p2"] == ["p1", "p2"];
  }

  /** A walk's outcome with more addresses and pages collected before it. */
  function Extend(urls: seq<string>, visited: seq<string>, outcome: Outcome): Outcome {
    match outcome
    case Finished(us, vs) => Finished(urls + us, visited + vs)
    case Failed(u) => Failed(u)
  }

  lemma ExtendExtend(u1: seq<string>, v1: seq<string>, u2: seq<string>, v2: seq<string>, outcome: Outcome)
    ensures Extend(u1, v1, Extend(u2, v2, outcome)) == Extend(u1 + u2, v1 + v2, outcome)
  {
    if outcome.Finished? {
      Assoc(u1, u2, outcome.urls);
      Assoc(v1, v2, outcome.visited);
    }
  }

  /** One step of the walk: fetch the page, collect its products, move on. */
  lemma WalkStep(site: Site, resolve: Resolver, cursor: string, fuel: nat)
    requires cursor != "" && cursor in site
    requires Walk(site, resolve, cursor, fuel).Some?
    ensures fuel > 0
    ensures var next := NextCursor(site[cursor], cursor, resolve);
      && Walk(site, resolve, next, fuel - 1).Some?
      && Walk(site, resolve, cursor, fuel).value
         == Extend(PageProductUrls(site[cursor], cursor, resolve), [cursor], Walk(site, resolve, next, fuel - 1).value)
  {
  }

  /** The loop's invariant survives one page: what is still to be walked
      from the page is its products and then the walk from its next link. */
  lemma WalkAdvance(site: Site, resolve: Resolver, here: string, f: nat,
                    urls: seq<string>, visited: seq<string>, total: Outcome)
    requires here != "" && here in site
    requires Walk(site, resolve, here, f).Some?
    requires total == Extend(urls, visited, Walk(site, resolve, here, f).value)
    ensures f > 0
    ensures var next := NextCursor(site[here], here, resolve);
      && Walk(site, resolve, next, f - 1).Some?
      && total == Extend(urls + PageProductUrls(site[here], here, resolve), visited + [here],
                         Walk(site, resolve, next, f - 1).value)
  {
    WalkStep(site, resolve, here, f);
    var next := NextCursor(site[here], here, resolve);
    ExtendExtend(urls, visited, PageProductUrls(site[here], here, resolve), [here], Walk(site, resolve, next, f - 1).value);
  }

  /** `category_product_urls(category_url)` over the pages of `site`. The
      ghost `fuel` bounds the number of pages; it exists only when the chain
      of next links ends, which the script itself never checks. */
  method CategoryProductUrls(site: Site, resolve: Resolver, categoryUrl: string, ghost fuel: nat)
    returns (r: Result<seq<string>, Error>)
    requires Walk(site, resolve, categoryUrl, fuel).Some?
    ensures r == Collected(Walk(site, resolve, categoryUrl, fuel).value)
  {
    var urls: seq<string> := [];
    var nextUrl := categoryUrl;
    ghost var f := fuel;
    ghost var visited: seq<string> := [];
    while nextUrl != ""
      invariant Walk(site, resolve, nextUrl, f).Some?
      invariant Walk(site, resolve, categoryUrl, fuel).value
        == Extend(urls, visited, Walk(site, resolve, nextUrl, f).value)
      decreases f
    {
      if nextUrl !in site {
        return Err(FetchFailed(nextUrl));
      }
      var page := site[nextUrl];
      var hrefs := page.productHrefs;
      ghost var before := urls;
      ghost var pageUrls := PageProductUrls(page, nextUrl, resolve);
      for i := 0 to |hrefs|
        invariant urls == before + pageUrls[..i]
      {
        urls := urls + [resolve(nextUrl, hrefs[i])];
        Snoc(pageUrls, i);
      }
      assert pageUrls[..|hrefs|] == pageUrls;
      ghost var here := nextUrl;
      match page.nextHref {
        case None => nextUrl := "";
        case Some(href) => nextUrl := resolve(nextUrl, href);
      }
      assert nextUrl == NextCursor(page, here, resolve);
      WalkAdvance(site, resolve, here, f, before, visited, Walk(site, resolve, categoryUrl, fuel).value);
      visited := visited + [here];
      f := f - 1;
    }
    assert urls + [] == urls && visited + [] == visited;
    return Ok(urls);
  }

  // ---------------------------------------------------------------------
  // get_categories
  // ---------------------------------------------------------------------

  /** `get_categories()`, given the sidebar links of the home page (`None`
      when the home page cannot be fetched): one (name, address) pair per
      link, in sidebar order, the name trimmed and the address resolved
      against the home page. */
  method GetCategories(home: Option<seq<SidebarLink>>, resolve: Resolver)
    returns (r: Result<seq<(string, string)>, Error>)
    ensures home.None? ==> r == Err(FetchFailed(Scraper3.BaseUrl))
    ensures home.Some? ==> r.Ok? && |r.value| == |home.value|
    ensures home.Some? ==> forall k | 0 <= k < |home.value| ::
      r.value[k] == (Strip(home.value[k].text), resolve(Scraper3.BaseUrl, home.value[k].href))
  {
    if home.None? {
      return Err(FetchFailed(Scraper3.BaseUrl));
    }
    var links := home.value;
    var cats: seq<(string, string)> := [];
    for i := 0 to |links|
      invariant |cats| == i
      invariant forall k | 0 <= k < i ::
        cats[k] == (Strip(links[k].text), resolve(Scraper3.BaseUrl, links[k].href))
    {
      var name := Strip(links[i].text);
      var url := resolve(Scraper3.BaseUrl, links[i].href);
      cats := cats + [(name, url)];
    }
    return Ok(cats);
  }
}
