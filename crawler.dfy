/** The same-site breadth-first crawler that collects the links of guide pages
    (`crawlGuides` in lib/scrapers/guideCrawler.js, and the copy in
    Scraping/WildRiftFire/Links.js). The browser is replaced by a `Site`: what loading
    each URL gives, and the URL parser used to resolve links. */
module GuideCrawler {
  import opened Wrappers
  import Text
  import Helpers
  import StringOrder

  /** What visiting one URL gives: navigation throws, the page loads but reading its
      anchors throws, or the page loads with these `href` attribute values. */
  datatype PageOutcome = NavigationFails | LinksFail | Loaded(anchors: seq<string>)

  /** The web as the crawler sees it. A URL missing from `pages` fails to load. */
  datatype Site = Site(pages: map<string, PageOutcome>, resolve: (string, string) -> Option<string>)

  /** A queue entry `{ url, depth }`. */
  datatype Entry = Entry(url: string, depth: nat)

  /** What the crawl hands back: the number of pages loaded and the sorted guide links. */
  datatype CrawlResult = CrawlResult(pagesVisited: nat, guideLinks: seq<string>)

  /** The crawl's limits, `config.scraping` (lib/config/defaults.js). */
  const MaxDepth: nat := 2
  const MaxPages: nat := 200

  /** The substring that marks a guide page. */
  const GuideMarker := "/guide/"

  function Outcome(site: Site, url: string): PageOutcome {
    if url in site.pages then site.pages[url] else NavigationFails
  }

  /** `page.goto(url)` succeeds. */
  predicate Navigates(site: Site, url: string) {
    !Outcome(site, url).NavigationFails?
  }

  /** `extractLinks`: the non-empty `href` values of a loaded page, in document order;
      nothing for a page whose loading or link extraction throws. */
  function PageHrefs(site: Site, url: string): (hrefs: seq<string>)
    ensures forall i :: 0 <= i < |hrefs| ==> hrefs[i] != []
    ensures !Outcome(site, url).Loaded? ==> hrefs == []
  {
    match Outcome(site, url)
    case Loaded(anchors) => Helpers.NonEmpty(anchors)
    case _ => []
  }

  /** The links `toAbsoluteUrl` accepts among `hrefs` on page `base`, in order, repeats
      kept. */
  function Absolute(hrefs: seq<string>, base: string, domain: string,
                    resolve: (string, string) -> Option<string>): (r: seq<string>)
    ensures |r| <= |hrefs|
    ensures forall i :: 0 <= i < |r| ==> '#' !in r[i]
    decreases |hrefs|
  {
    if hrefs == [] then []
    else
      var prev := Absolute(hrefs[..|hrefs| - 1], base, domain, resolve);
      match Helpers.ToAbsoluteUrl(hrefs[|hrefs| - 1], base, domain, resolve)
      case None => prev
      case Some(a) => prev + [a]
  }

  /** A link is accepted exactly when `toAbsoluteUrl` turns one of `hrefs` into it. */
  lemma {:induction false} InAbsolute(hrefs: seq<string>, base: string, domain: string,
                                      resolve: (string, string) -> Option<string>, x: string)
    ensures x in Absolute(hrefs, base, domain, resolve)
            <==> exists i :: 0 <= i < |hrefs| && Helpers.ToAbsoluteUrl(hrefs[i], base, domain, resolve) == Some(x)
    decreases |hrefs|
  {
    if hrefs != [] {
      var init := hrefs[..|hrefs| - 1];
      InAbsolute(init, base, domain, resolve, x);
      assert forall i :: 0 <= i < |init| ==> init[i] == hrefs[i];
    }
  }

  /** The absolute same-site links found on `url`. */
  function Links(site: Site, domain: string, url: string): seq<string> {
    Absolute(PageHrefs(site, url), url, domain, site.resolve)
  }

  /** The links among `links` that contain `/guide/`. */
  function GuideSet(links: seq<string>): (r: set<string>)
    decreases |links|
  {
    if links == [] then {}
    else
      var init := links[..|links| - 1];
      var l := links[|links| - 1];
      assert links == init + [l];
      GuideSet(init) + if Text.Contains(l, GuideMarker) then {l} else {}
  }

  lemma {:induction false} InGuideSet(links: seq<string>, l: string)
    ensures l in GuideSet(links) <==> l in links && Text.Contains(l, GuideMarker)
    decreases |links|
  {
    if links != [] {
      var init := links[..|links| - 1];
      assert links == init + [links[|links| - 1]];
      InGuideSet(init, l);
    }
  }

  /** The guide links collected from the pages `pages`, in visiting order. */
  function GuidesOf(site: Site, domain: string, pages: seq<string>): (r: set<string>)
    decreases |pages|
  {
    if pages == [] then {}
    else
      var init := pages[..|pages| - 1];
      GuidesOf(site, domain, init) + GuideSet(Links(site, domain, pages[|pages| - 1]))
  }

  lemma InGuidesOfLast(site: Site, domain: string, pages: seq<string>, g: string)
    requires pages != []
    requires g in GuidesOf(site, domain, pages[..|pages| - 1])
             || g in GuideSet(Links(site, domain, pages[|pages| - 1]))
    ensures g in GuidesOf(site, domain, pages)
  {
  }

  lemma GuidesOfPush(site: Site, domain: string, pages: seq<string>, u: string)
    ensures GuidesOf(site, domain, pages + [u]) == GuidesOf(site, domain, pages) + GuideSet(Links(site, domain, u))
  {
    assert (pages + [u])[..|pages|] == pages;
  }

  /** A guide link on any visited page is collected. */
  lemma {:induction false} GuideCollected(site: Site, domain: string, pages: seq<string>, k: nat, g: string)
    requires k < |pages| && g in Links(site, domain, pages[k]) && Text.Contains(g, GuideMarker)
    ensures g in GuidesOf(site, domain, pages)
    decreases |pages|
  {
    var n := |pages| - 1;
    var init := pages[..n];
    if k < n {
      assert init[k] == pages[k];
      GuideCollected(site, domain, init, k, g);
      InGuidesOfLast(site, domain, pages, g);
    } else {
      assert k == n;
      InGuideSet(Links(site, domain, pages[n]), g);
      InGuidesOfLast(site, domain, pages, g);
    }
  }

  /** Every collected guide link comes from a visited page. */
  lemma {:induction false} GuideSource(site: Site, domain: string, pages: seq<string>, g: string) returns (k: nat)
    requires g in GuidesOf(site, domain, pages)
    ensures k < |pages| && g in Links(site, domain, pages[k]) && Text.Contains(g, GuideMarker)
    decreases |pages|
  {
    var n := |pages| - 1;
    var init := pages[..n];
    if g in GuidesOf(site, domain, init) {
      k := GuideSource(site, domain, init, g);
      assert init[k] == pages[k];
    } else {
      k := n;
      InGuideSet(Links(site, domain, pages[n]), g);
    }
  }

  /** How many of `pages` load: what `pagesVisited` counts. */
  function NavCount(site: Site, pages: seq<string>): (n: nat)
    ensures n <= |pages|
    ensures n == 0 <==> forall k :: 0 <= k < |pages| ==> !Navigates(site, pages[k])
    decreases |pages|
  {
    if pages == [] then 0
    else
      var init := pages[..|pages| - 1];
      assert forall k :: 0 <= k < |init| ==> init[k] == pages[k];
      NavCount(site, init) + if Navigates(site, pages[|pages| - 1]) then 1 else 0
  }

  /** The links of `links` the crawler enqueues from a page above the depth limit,
      given the URLs `seen` already discovered: first occurrences only, not already
      discovered, not static assets. */
  function Fresh(links: seq<string>, seen: set<string>): (r: seq<string>)
    ensures forall i :: 0 <= i < |r| ==> r[i] in links && r[i] !in seen && !Helpers.IsStaticAsset(r[i])
    ensures forall i, j :: 0 <= i < j < |r| ==> r[i] != r[j]
    ensures forall l :: l in links && l !in seen && !Helpers.IsStaticAsset(l) ==> l in r
    decreases |links|
  {
    if links == [] then []
    else
      var init := links[..|links| - 1];
      var l := links[|links| - 1];
      var prev := Fresh(init, seen);
      assert forall x :: x in links <==> x in init || x == l by {
        assert links == init + [l];
      }
      if l in seen || l in prev || Helpers.IsStaticAsset(l) then prev else prev + [l]
  }

  /** Queue entries for `urls`, all at depth `d`. */
  function AtDepth(urls: seq<string>, d: nat): (r: seq<Entry>)
    ensures |r| == |urls|
  {
    if urls == [] then [] else [Entry(urls[0], d)] + AtDepth(urls[1..], d)
  }

  /** Every link any page of the site leads to: a finite set, so the crawl ends. */
  ghost function Universe(site: Site, domain: string): set<string> {
    set u, l | u in site.pages && l in Links(site, domain, u) :: l
  }

  /** The guide links of visited pages start with the domain, when the domain has no
      `#` (an origin never has one). */
  lemma GuidesStartWithDomain(site: Site, domain: string, pages: seq<string>)
    requires '#' !in domain
    ensures forall g :: g in GuidesOf(site, domain, pages) ==> Text.StartsWith(g, domain)
  {
    forall g | g in GuidesOf(site, domain, pages) ensures Text.StartsWith(g, domain) {
      var k := GuideSource(site, domain, pages, g);
      var hrefs := PageHrefs(site, pages[k]);
      InAbsolute(hrefs, pages[k], domain, site.resolve, g);
      var i :| 0 <= i < |hrefs| && Helpers.ToAbsoluteUrl(hrefs[i], pages[k], domain, site.resolve) == Some(g);
      Helpers.AbsoluteUrlStable(hrefs[i], pages[k], domain, site.resolve);
    }
  }

  /** Every collected guide link contains `/guide/` and has no fragment. */
  lemma GuidesMarked(site: Site, domain: string, pages: seq<string>)
    ensures forall g :: g in GuidesOf(site, domain, pages) ==> Text.Contains(g, GuideMarker) && '#' !in g
  {
    forall g | g in GuidesOf(site, domain, pages)
      ensures Text.Contains(g, GuideMarker) && '#' !in g
    {
      var k := GuideSource(site, domain, pages, g);
      var links := Links(site, domain, pages[k]);
      var i :| 0 <= i < |links| && links[i] == g;
    }
  }

  lemma AbsolutePush(hrefs: seq<string>, j: nat, base: string, domain: string,
                     resolve: (string, string) -> Option<string>)
    requires j < |hrefs|
    ensures Absolute(hrefs[..j + 1], base, domain, resolve)
            == Absolute(hrefs[..j], base, domain, resolve)
               + match Helpers.ToAbsoluteUrl(hrefs[j], base, domain, resolve)
                 case None => []
                 case Some(a) => [a]
  {
    assert hrefs[..j + 1][..j] == hrefs[..j];
  }

  lemma FreshPush(links: seq<string>, l: string, seen: set<string>)
    ensures Fresh(links + [l], seen)
            == Fresh(links, seen)
               + if l in seen || l in Fresh(links, seen) || Helpers.IsStaticAsset(l) then [] else [l]
  {
    assert (links + [l])[..|links|] == links;
  }

  lemma {:induction false} AtDepthAt(urls: seq<string>, d: nat, i: nat)
    requires i < |urls|
    ensures AtDepth(urls, d)[i] == Entry(urls[i], d)
  {
    if i > 0 {
      AtDepthAt(urls[1..], d, i - 1);
    }
  }

  lemma {:induction false} AtDepthPush(urls: seq<string>, u: string, d: nat)
    ensures AtDepth(urls + [u], d) == AtDepth(urls, d) + [Entry(u, d)]
  {
    if urls != [] {
      assert (urls + [u])[1..] == urls[1..] + [u];
      AtDepthPush(urls[1..], u, d);
    } else {
      assert AtDepth([u], d) == [Entry(u, d)] + AtDepth([], d);
    }
  }

  lemma GuideSetPush(links: seq<string>, l: string)
    ensures GuideSet(links + [l]) == GuideSet(links) + if Text.Contains(l, GuideMarker) then {l} else {}
  {
    assert (links + [l])[..|links|] == links;
  }

  lemma NavCountPush(site: Site, pages: seq<string>, u: string)
    ensures NavCount(site, pages + [u]) == NavCount(site, pages) + if Navigates(site, u) then 1 else 0
  {
    assert (pages + [u])[..|pages|] == pages;
  }

  lemma InUniverse(site: Site, domain: string, url: string, l: string)
    requires l in Links(site, domain, url)
    ensures l in Universe(site, domain)
  {
  }

  lemma SeqAssoc<T>(a: seq<T>, b: seq<T>, c: seq<T>)
    ensures (a + b) + c == a + (b + c)
  {
  }

  lemma SetAssoc<T>(a: set<T>, b: set<T>, c: set<T>)
    ensures (a + b) + c == a + (b + c)
  {
  }

  /** A proper step towards the finite universe leaves fewer links to discover. */
  lemma FewerUndiscovered(u: set<string>, d: set<string>, d': set<string>, x: string)
    requires d <= d' && x in d' && x !in d && x in u
    ensures |u - d'| < |u - d|
  {
    var a, b := u - d', (u - d) - {x};
    assert a <= b;
    assert b == a + (b - a) && a * (b - a) == {};
    assert |b| == |u - d| - 1;
  }

  /** The queue is what is left of the entries ever queued once the first `taken` were
      shifted off; the first entry is the start URL, each later one a discovered URL,
      and none lies beyond the depth limit. */
  ghost predicate QueueShape(pushed: seq<Entry>, found: seq<string>, taken: nat, queue: seq<Entry>,
                             startUrl: string, maxDepth: nat) {
    && |pushed| == |found| + 1 && pushed[0] == Entry(startUrl, 0)
    && taken <= |pushed| && queue == pushed[taken..]
    && (forall i :: 1 <= i < |pushed| ==> pushed[i].url == found[i - 1])
    && (forall i :: 0 <= i < |pushed| ==> pushed[i].depth <= maxDepth)
  }

  /** `discovered` holds the URLs discovered so far, each once, none a static asset,
      all linked from some page of the site. */
  ghost predicate Discovery(discovered: set<string>, found: seq<string>, site: Site, domain: string) {
    && (forall u :: u in discovered <==> u in found)
    && (forall i, j :: 0 <= i < j < |found| ==> found[i] != found[j])
    && (forall u :: u in discovered ==> !Helpers.IsStaticAsset(u))
    && discovered <= Universe(site, domain)
  }

  /** `visited` holds the URLs navigated to, each once, each the start URL or a
      discovered one. */
  ghost predicate Visits(visited: set<string>, attempts: seq<string>, startUrl: string, discovered: set<string>) {
    && (forall u :: u in visited <==> u in attempts)
    && (forall i, j :: 0 <= i < j < |attempts| ==> attempts[i] != attempts[j])
    && (forall u :: u in visited ==> u == startUrl || u in discovered)
  }

  /** `queue.shift()` takes the next entry of the history. */
  lemma QueueShift(pushed: seq<Entry>, found: seq<string>, taken: nat, queue: seq<Entry>,
                   startUrl: string, maxDepth: nat)
    requires QueueShape(pushed, found, taken, queue, startUrl, maxDepth) && queue != []
    ensures QueueShape(pushed, found, taken + 1, queue[1..], startUrl, maxDepth)
    ensures queue[0].depth <= maxDepth
    ensures queue[0].url == startUrl || queue[0].url in found
  {
    assert queue[0] == pushed[taken];
    if taken > 0 {
      assert pushed[taken].url == found[taken - 1];
    }
  }

  /** Queueing new entries extends the history. */
  lemma QueueAppend(pushed: seq<Entry>, found: seq<string>, taken: nat, queue: seq<Entry>,
                    startUrl: string, maxDepth: nat, f: seq<string>, d: nat)
    requires QueueShape(pushed, found, taken, queue, startUrl, maxDepth) && d <= maxDepth
    ensures QueueShape(pushed + AtDepth(f, d), found + f, taken, queue + AtDepth(f, d), startUrl, maxDepth)
  {
    var p := pushed + AtDepth(f, d);
    assert p[taken..] == queue + AtDepth(f, d);
    forall i | 0 <= i < |p| ensures p[i].depth <= maxDepth && (i >= 1 ==> p[i].url == (found + f)[i - 1]) {
      if i >= |pushed| {
        AtDepthAt(f, d, i - |pushed|);
        assert p[i] == AtDepth(f, d)[i - |pushed|];
      }
    }
  }

  /** Discovering the fresh links of a page keeps the discovered URLs distinct, free of
      static assets and within the site. */
  lemma DiscoverFresh(discovered: set<string>, discovered': set<string>, found: seq<string>,
                      site: Site, domain: string, url: string)
    requires Discovery(discovered, found, site, domain)
    requires forall u :: u in discovered' <==> u in discovered || u in Fresh(Links(site, domain, url), discovered)
    ensures Discovery(discovered', found + Fresh(Links(site, domain, url), discovered), site, domain)
  {
    var f := Fresh(Links(site, domain, url), discovered);
    var found' := found + f;
    forall i, j | 0 <= i < j < |found'| ensures found'[i] != found'[j] {
      if j >= |found| {
        assert found'[j] == f[j - |found|];
        if i >= |found| {
          assert found'[i] == f[i - |found|];
        } else {
          assert found'[i] in discovered;
        }
      }
    }
    forall u | u in discovered' ensures u in Universe(site, domain) {
      if u in f {
        InUniverse(site, domain, url, u);
      }
    }
  }

  /** Navigating to a URL not yet visited records it. */
  lemma VisitAdd(visited: set<string>, attempts: seq<string>, startUrl: string, discovered: set<string>, u: string)
    requires Visits(visited, attempts, startUrl, discovered) && u !in visited
    requires u == startUrl || u in discovered
    ensures Visits(visited + {u}, attempts + [u], startUrl, discovered)
  {
    var a := attempts + [u];
    forall i, j | 0 <= i < j < |a| ensures a[i] != a[j] {
      if j == |attempts| {
        assert a[i] in visited;
      }
    }
  }

  /** The part of the crawl state the link loop of one page changes. */
  datatype Tally = Tally(queue: seq<Entry>, discovered: set<string>, guideLinks: set<string>,
                         pushed: seq<Entry>, found: seq<string>)

  /** What accepting the link `a` on a page at `depth` does: a link containing `/guide/`
      is collected; below the depth limit a link neither discovered nor a static asset is
      discovered and queued one level deeper. */
  function Accept(t: Tally, a: string, depth: nat, maxDepth: nat): Tally {
    var guides := t.guideLinks + if Text.Contains(a, GuideMarker) then {a} else {};
    if depth < maxDepth && a !in t.discovered && !Helpers.IsStaticAsset(a) then
      Tally(t.queue + [Entry(a, depth + 1)], t.discovered + {a}, guides,
            t.pushed + [Entry(a, depth + 1)], t.found + [a])
    else t.(guideLinks := guides)
  }

  /** The URLs a page above the depth limit discovers among its accepted links `links`,
      given those already discovered; none at the depth limit. */
  function FreshAt(links: seq<string>, seen: set<string>, depth: nat, maxDepth: nat): seq<string> {
    if depth < maxDepth then Fresh(links, seen) else []
  }

  /** After the accepted links `links` of a page at `depth`, starting from `t0`: the guide
      links among them are collected, and the fresh ones, when below the depth limit,
      are discovered and queued one level deeper. */
  ghost predicate Scanned(t0: Tally, t: Tally, links: seq<string>, depth: nat, maxDepth: nat) {
    var f := FreshAt(links, t0.discovered, depth, maxDepth);
    && t.guideLinks == t0.guideLinks + GuideSet(links)
    && t.found == t0.found + f
    && t.pushed == t0.pushed + AtDepth(f, depth + 1)
    && t.queue == t0.queue + AtDepth(f, depth + 1)
    && (forall u :: u in t.discovered <==> u in t0.discovered || u in f)
  }

  /** Accepting one more link keeps the loop invariant. */
  lemma ScanStep(t0: Tally, t: Tally, links: seq<string>, a: string, depth: nat, maxDepth: nat)
    requires Scanned(t0, t, links, depth, maxDepth)
    ensures Scanned(t0, Accept(t, a, depth, maxDepth), links + [a], depth, maxDepth)
  {
    var f := FreshAt(links, t0.discovered, depth, maxDepth);
    GuideSetPush(links, a);
    SetAssoc(t0.guideLinks, GuideSet(links), if Text.Contains(a, GuideMarker) then {a} else {});
    FreshPush(links, a, t0.discovered);
    if depth < maxDepth && a !in t.discovered && !Helpers.IsStaticAsset(a) {
      AtDepthPush(f, a, depth + 1);
      SeqAssoc(t0.queue, AtDepth(f, depth + 1), [Entry(a, depth + 1)]);
      SeqAssoc(t0.pushed, AtDepth(f, depth + 1), [Entry(a, depth + 1)]);
      SeqAssoc(t0.found, f, [a]);
    }
  }

  /** Scanning a page of the site keeps the queue history and the discovered URLs
      well formed. */
  lemma ScanKeepsFrontier(t0: Tally, t: Tally, site: Site, domain: string, url: string, depth: nat,
                          taken: nat, startUrl: string, maxDepth: nat)
    requires QueueShape(t0.pushed, t0.found, taken, t0.queue, startUrl, maxDepth)
    requires Discovery(t0.discovered, t0.found, site, domain)
    requires Scanned(t0, t, Links(site, domain, url), depth, maxDepth) && depth <= maxDepth
    ensures QueueShape(t.pushed, t.found, taken, t.queue, startUrl, maxDepth)
    ensures Discovery(t.discovered, t.found, site, domain)
    ensures t0.discovered <= t.discovered
  {
    var f := FreshAt(Links(site, domain, url), t0.discovered, depth, maxDepth);
    if depth < maxDepth {
      QueueAppend(t0.pushed, t0.found, taken, t0.queue, startUrl, maxDepth, f, depth + 1);
      assert t.pushed == t0.pushed + AtDepth(f, depth + 1);
      assert t.found == t0.found + f;
      assert t.queue == t0.queue + AtDepth(f, depth + 1);
      assert QueueShape(t.pushed, t.found, taken, t.queue, startUrl, maxDepth);
      DiscoverFresh(t0.discovered, t.discovered, t0.found, site, domain, url);
    } else {
      assert f == [] && AtDepth(f, depth + 1) == [];
      assert t.pushed == t0.pushed && t.found == t0.found && t.queue == t0.queue;
      assert t.discovered == t0.discovered;
    }
  }

  /** A scan that discovers nothing queues nothing. */
  lemma ScanUnchanged(t0: Tally, t: Tally, links: seq<string>, depth: nat, maxDepth: nat)
    requires Scanned(t0, t, links, depth, maxDepth)
    ensures t.discovered == t0.discovered ==> t.queue == t0.queue
  {
  }

  /** Discovering more URLs keeps the visited ones accounted for. */
  lemma VisitsGrow(visited: set<string>, attempts: seq<string>, startUrl: string,
                   discovered: set<string>, discovered': set<string>)
    requires Visits(visited, attempts, startUrl, discovered) && discovered <= discovered'
    ensures Visits(visited, attempts, startUrl, discovered')
  {
  }

  /** The crawl loop's invariant, guide links aside, on the crawl's state: the queue
      history, the discovered URLs and the visited ones are well formed, and the counter
      counts the pages that loaded, within the ceiling. */
  ghost predicate FrontierOf(pushed: seq<Entry>, found: seq<string>, taken: nat, queue: seq<Entry>,
                             startUrl: string, maxDepth: nat, discovered: set<string>, site: Site,
                             domain: string, visited: set<string>, attempts: seq<string>,
                             pagesVisited: nat, maxPages: nat) {
      && QueueShape(pushed, found, taken, queue, startUrl, maxDepth)
      && Discovery(discovered, found, site, domain)
      && Visits(visited, attempts, startUrl, discovered)
      && pagesVisited == NavCount(site, attempts) && pagesVisited <= maxPages
  }

  /** Visiting a URL that is the start URL or a discovered one, not yet visited, keeps
      the invariant: the page is counted exactly when it loads. */
  lemma ArriveStep(pushed: seq<Entry>, found: seq<string>, taken: nat, queue: seq<Entry>,
                   startUrl: string, maxDepth: nat, discovered: set<string>, site: Site,
                   domain: string, visited: set<string>, attempts: seq<string>,
                   pagesVisited: nat, maxPages: nat, u: string)
    requires FrontierOf(pushed, found, taken, queue, startUrl, maxDepth, discovered, site, domain,
                        visited, attempts, pagesVisited, maxPages)
    requires u !in visited && pagesVisited < maxPages && (u == startUrl || u in discovered)
    ensures FrontierOf(pushed, found, taken, queue, startUrl, maxDepth, discovered, site, domain,
                       visited + {u}, attempts + [u],
                       pagesVisited + if Navigates(site, u) then 1 else 0, maxPages)
  {
    VisitAdd(visited, attempts, startUrl, discovered, u);
    NavCountPush(site, attempts, u);
  }

  /** Every link of page `u` is discovered or a static asset: what scanning a page
      above the depth limit guarantees. */
  ghost predicate LinksKnown(site: Site, domain: string, u: string, discovered: set<string>) {
    forall l :: l in Links(site, domain, u) ==> l in discovered || Helpers.IsStaticAsset(l)
  }

  /** `u`, at depth `d`, is a link of one of the first `n` pages navigated to, which
      lies one level shallower. */
  ghost predicate LinkedFrom(site: Site, domain: string, u: string, d: nat,
                             attempts: seq<string>, depths: seq<nat>, n: nat)
    decreases n
  {
    && 0 < n <= |attempts| && n <= |depths|
    && ((d == depths[n - 1] + 1 && u in Links(site, domain, attempts[n - 1]))
        || LinkedFrom(site, domain, u, d, attempts, depths, n - 1))
  }

  /** `LinkedFrom` names the page that links to `u`. */
  lemma {:induction false} LinkedFromWitness(site: Site, domain: string, u: string, d: nat,
                                             attempts: seq<string>, depths: seq<nat>, n: nat)
    ensures LinkedFrom(site, domain, u, d, attempts, depths, n)
            <==> n <= |attempts| && n <= |depths|
                 && exists j :: 0 <= j < n && d == depths[j] + 1 && u in Links(site, domain, attempts[j])
    decreases n
  {
    if n > 0 && n <= |attempts| && n <= |depths| {
      LinkedFromWitness(site, domain, u, d, attempts, depths, n - 1);
      var here := d == depths[n - 1] + 1 && u in Links(site, domain, attempts[n - 1]);
      if here {
        assert 0 <= n - 1 < n && d == depths[n - 1] + 1 && u in Links(site, domain, attempts[n - 1]);
      } else if LinkedFrom(site, domain, u, d, attempts, depths, n - 1) {
        var j :| 0 <= j < n - 1 && d == depths[j] + 1 && u in Links(site, domain, attempts[j]);
        assert 0 <= j < n && d == depths[j] + 1 && u in Links(site, domain, attempts[j]);
      } else {
        forall j | 0 <= j < n ensures !(d == depths[j] + 1 && u in Links(site, domain, attempts[j])) {
          if j < n - 1 {
            assert !(0 <= j < n - 1 && d == depths[j] + 1 && u in Links(site, domain, attempts[j]));
          }
        }
      }
    }
  }

  /** Navigating to more pages keeps every link traced. */
  lemma {:induction false} LinkedFromGrow(site: Site, domain: string, u: string, d: nat,
                                          attempts: seq<string>, depths: seq<nat>, n: nat,
                                          attempts': seq<string>, depths': seq<nat>, n': nat)
    requires LinkedFrom(site, domain, u, d, attempts, depths, n)
    requires attempts <= attempts' && depths <= depths' && n <= n' <= |attempts'| && n' <= |depths'|
    ensures LinkedFrom(site, domain, u, d, attempts', depths', n')
  {
    LinkedFromExtend(site, domain, u, d, attempts, depths, attempts', depths', n);
    LinkedFromWiden(site, domain, u, d, attempts', depths', n, n');
  }

  /** Later pages leave the trace of earlier ones as it was. */
  lemma {:induction false} LinkedFromExtend(site: Site, domain: string, u: string, d: nat,
                                            attempts: seq<string>, depths: seq<nat>,
                                            attempts': seq<string>, depths': seq<nat>, n: nat)
    requires LinkedFrom(site, domain, u, d, attempts, depths, n)
    requires attempts <= attempts' && depths <= depths'
    ensures LinkedFrom(site, domain, u, d, attempts', depths', n)
    decreases n
  {
    assert attempts'[n - 1] == attempts[n - 1] && depths'[n - 1] == depths[n - 1];
    if !(d == depths[n - 1] + 1 && u in Links(site, domain, attempts[n - 1])) {
      LinkedFromExtend(site, domain, u, d, attempts, depths, attempts', depths', n - 1);
    }
  }

  /** A link traced among the first `n` pages is traced among the first `n'`. */
  lemma {:induction false} LinkedFromWiden(site: Site, domain: string, u: string, d: nat,
                                           attempts: seq<string>, depths: seq<nat>, n: nat, n': nat)
    requires LinkedFrom(site, domain, u, d, attempts, depths, n)
    requires n <= n' <= |attempts| && n' <= |depths|
    ensures LinkedFrom(site, domain, u, d, attempts, depths, n')
    decreases n'
  {
    if n < n' {
      LinkedFromWiden(site, domain, u, d, attempts, depths, n, n' - 1);
      LinkedFromNext(site, domain, u, d, attempts, depths, n');
    }
  }

  /** One page more keeps a link traced. */
  lemma LinkedFromNext(site: Site, domain: string, u: string, d: nat,
                       attempts: seq<string>, depths: seq<nat>, m: nat)
    requires 0 < m <= |attempts| && m <= |depths|
    requires LinkedFrom(site, domain, u, d, attempts, depths, m - 1)
    ensures LinkedFrom(site, domain, u, d, attempts, depths, m)
  {
  }

  /** The breadth-first trace: the first page navigated to is the start URL at depth 0;
      every later page and every later queue entry is a link of an earlier page, one
      level deeper; every page navigated to above the depth limit had all its links
      discovered, static assets aside. */
  ghost predicate Traced(site: Site, domain: string, maxDepth: nat, startUrl: string, pushed: seq<Entry>,
                         attempts: seq<string>, depths: seq<nat>, discovered: set<string>) {
    && |depths| == |attempts|
    && (forall k :: 0 <= k < |depths| ==> depths[k] <= maxDepth)
    && (attempts != [] ==> attempts[0] == startUrl && depths[0] == 0)
    && (forall k :: 0 <= k < |attempts| && depths[k] < maxDepth ==> LinksKnown(site, domain, attempts[k], discovered))
    && (forall i :: 1 <= i < |pushed| ==>
          LinkedFrom(site, domain, pushed[i].url, pushed[i].depth, attempts, depths, |attempts|))
    && (forall k :: 1 <= k < |attempts| ==> LinkedFrom(site, domain, attempts[k], depths[k], attempts, depths, k))
  }

  /** Every entry shifted off the queue so far has its URL visited. */
  ghost predicate Reached(pushed: seq<Entry>, taken: nat, visited: set<string>) {
    taken <= |pushed| && forall i :: 0 <= i < taken ==> pushed[i].url in visited
  }

  /** Shifting an entry whose URL ends up visited extends what is reached. */
  lemma ReachedNext(pushed: seq<Entry>, pushed': seq<Entry>, taken: nat, visited: set<string>, visited': set<string>)
    requires 1 <= taken <= |pushed| && Reached(pushed, taken - 1, visited)
    requires visited <= visited' && pushed[taken - 1].url in visited' && pushed <= pushed'
    ensures Reached(pushed', taken, visited')
  {
    forall i | 0 <= i < taken ensures pushed'[i].url in visited' {
      assert pushed'[i] == pushed[i];
    }
  }

  /** What visiting the entry `e` did to the queue history and the discovered URLs,
      from `t0` to `t`: both only grew; when `e` lies above the depth limit every link of
      its page is known; every entry added is a link of the page, one level deeper. */
  ghost predicate Explored(site: Site, domain: string, maxDepth: nat, e: Entry, t0: Tally, t: Tally) {
    && t0.pushed <= t.pushed && t0.discovered <= t.discovered
    && (e.depth < maxDepth ==> LinksKnown(site, domain, e.url, t.discovered))
    && (forall i :: |t0.pushed| <= i < |t.pushed| ==>
          t.pushed[i].depth == e.depth + 1 && t.pushed[i].url in Links(site, domain, e.url))
  }

  /** A page whose navigation or link reading fails explores nothing. */
  lemma ExploredNothing(site: Site, domain: string, maxDepth: nat, e: Entry, t: Tally)
    requires !Outcome(site, e.url).Loaded?
    ensures Explored(site, domain, maxDepth, e, t, t)
  {
    assert Links(site, domain, e.url) == [];
  }

  /** Scanning the links of a loaded page explores it. */
  lemma ScanTrace(site: Site, domain: string, maxDepth: nat, e: Entry, t0: Tally, t: Tally)
    requires Scanned(t0, t, Links(site, domain, e.url), e.depth, maxDepth)
    ensures Explored(site, domain, maxDepth, e, t0, t)
  {
    var links, depth := Links(site, domain, e.url), e.depth;
    var f := FreshAt(links, t0.discovered, depth, maxDepth);
    var added := AtDepth(f, depth + 1);
    assert t.pushed == t0.pushed + added;
    forall i | |t0.pushed| <= i < |t.pushed| ensures t.pushed[i].depth == depth + 1 && t.pushed[i].url in links {
      var j := i - |t0.pushed|;
      assert t.pushed[i] == added[j];
      AtDepthAt(f, depth + 1, j);
      assert f[j] in links;
    }
  }

  /** Navigating to the next shifted entry `e` and scanning its page keeps the trace. */
  lemma TraceStep(site: Site, domain: string, maxDepth: nat, startUrl: string, pushed: seq<Entry>,
                  attempts: seq<string>, depths: seq<nat>, discovered: set<string>, visited: set<string>,
                  taken: nat, t0: Tally, t: Tally, e: Entry)
    requires Traced(site, domain, maxDepth, startUrl, pushed, attempts, depths, discovered)
    requires pushed != [] && pushed[0] == Entry(startUrl, 0)
    requires 1 <= taken <= |pushed| && e == pushed[taken - 1] && e.depth <= maxDepth
    requires Reached(pushed, taken - 1, visited) && (forall u :: u in visited <==> u in attempts)
    requires taken == 1 ==> attempts == []
    requires t0.pushed == pushed && t0.discovered == discovered
    requires Explored(site, domain, maxDepth, e, t0, t)
    ensures Traced(site, domain, maxDepth, startUrl, t.pushed, attempts + [e.url], depths + [e.depth], t.discovered)
  {
    var a, ds, n := attempts + [e.url], depths + [e.depth], |attempts|;
    TraceKnown(site, domain, maxDepth, attempts, depths, discovered, t.discovered, e);
    TraceEntries(site, domain, pushed, t.pushed, attempts, depths, e);
    if n > 0 {
      assert pushed[0].url in visited;
      assert 1 <= taken - 1 && pushed[taken - 1] == e;
    }
    TracePages(site, domain, attempts, depths, e);
  }

  /** The closure part of `Traced` after navigating to `e.url`. */
  lemma TraceKnown(site: Site, domain: string, maxDepth: nat, attempts: seq<string>, depths: seq<nat>,
                   discovered: set<string>, discovered': set<string>, e: Entry)
    requires |depths| == |attempts| && discovered <= discovered'
    requires forall k :: 0 <= k < |attempts| && depths[k] < maxDepth ==> LinksKnown(site, domain, attempts[k], discovered)
    requires e.depth < maxDepth ==> LinksKnown(site, domain, e.url, discovered')
    ensures forall k :: 0 <= k < |attempts| + 1 && (depths + [e.depth])[k] < maxDepth ==>
              LinksKnown(site, domain, (attempts + [e.url])[k], discovered')
  {
    var a, ds := attempts + [e.url], depths + [e.depth];
    forall k | 0 <= k < |a| && ds[k] < maxDepth ensures LinksKnown(site, domain, a[k], discovered') {
      if k < |attempts| {
        assert a[k] == attempts[k] && ds[k] == depths[k];
        assert LinksKnown(site, domain, attempts[k], discovered);
      }
    }
  }

  /** The queue entries stay traced after navigating to `e.url`, and those added are
      links of its page. */
  lemma TraceEntries(site: Site, domain: string, pushed: seq<Entry>, pushed': seq<Entry>,
                     attempts: seq<string>, depths: seq<nat>, e: Entry)
    requires |depths| == |attempts| && pushed <= pushed'
    requires forall i :: 1 <= i < |pushed| ==>
               LinkedFrom(site, domain, pushed[i].url, pushed[i].depth, attempts, depths, |attempts|)
    requires forall i :: |pushed| <= i < |pushed'| ==>
               pushed'[i].depth == e.depth + 1 && pushed'[i].url in Links(site, domain, e.url)
    ensures forall i :: 1 <= i < |pushed'| ==>
              LinkedFrom(site, domain, pushed'[i].url, pushed'[i].depth, attempts + [e.url], depths + [e.depth], |attempts| + 1)
  {
    var a, ds, n := attempts + [e.url], depths + [e.depth], |attempts|;
    forall i | 1 <= i < |pushed'| ensures LinkedFrom(site, domain, pushed'[i].url, pushed'[i].depth, a, ds, n + 1) {
      if i < |pushed| {
        assert pushed'[i] == pushed[i];
        LinkedFromGrow(site, domain, pushed[i].url, pushed[i].depth, attempts, depths, n, a, ds, n + 1);
      } else {
        assert a[n] == e.url && ds[n] == e.depth;
      }
    }
  }

  /** The pages stay traced after navigating to `e.url`, which was itself traced. */
  lemma TracePages(site: Site, domain: string, attempts: seq<string>, depths: seq<nat>, e: Entry)
    requires |depths| == |attempts|
    requires forall k :: 1 <= k < |attempts| ==> LinkedFrom(site, domain, attempts[k], depths[k], attempts, depths, k)
    requires attempts != [] ==> LinkedFrom(site, domain, e.url, e.depth, attempts, depths, |attempts|)
    ensures forall k :: 1 <= k < |attempts| + 1 ==>
              LinkedFrom(site, domain, (attempts + [e.url])[k], (depths + [e.depth])[k], attempts + [e.url], depths + [e.depth], k)
  {
    var a, ds, n := attempts + [e.url], depths + [e.depth], |attempts|;
    forall k | 1 <= k < |a| ensures LinkedFrom(site, domain, a[k], ds[k], a, ds, k) {
      if k < n {
        assert a[k] == attempts[k] && ds[k] == depths[k];
        LinkedFromGrow(site, domain, attempts[k], depths[k], attempts, depths, k, a, ds, k);
      } else {
        LinkedFromGrow(site, domain, e.url, e.depth, attempts, depths, n, a, ds, n);
      }
    }
  }

  /** Once the queue is empty every URL ever queued has been visited: the start URL and
      every discovered one, and nothing else. */
  lemma AllVisited(pushed: seq<Entry>, found: seq<string>, taken: nat, startUrl: string, maxDepth: nat,
                   visited: set<string>, attempts: seq<string>, discovered: set<string>, site: Site, domain: string)
    requires QueueShape(pushed, found, taken, [], startUrl, maxDepth)
    requires Discovery(discovered, found, site, domain)
    requires Visits(visited, attempts, startUrl, discovered)
    requires Reached(pushed, taken, visited)
    ensures visited == {startUrl} + discovered
  {
    assert taken == |pushed|;
    assert pushed[0].url == startUrl;
    forall u | u in discovered ensures u in visited {
      var i :| 0 <= i < |found| && found[i] == u;
      assert pushed[i + 1].url == u;
    }
  }

  /** The state of one run of `crawlGuides`. */
  class Crawler {
    const site: Site
    const domain: string
    const startUrl: string
    const maxDepth: nat
    const maxPages: nat

    var queue: seq<Entry>
    var visited: set<string>
    var discovered: set<string>
    var guideLinks: set<string>
    var pagesVisited: nat

    /** The URLs navigated to, in order, and the depth of the entry each came from. */
    ghost var attempts: seq<string>
    ghost var depths: seq<nat>
    /** Every entry ever queued, in order; the first `taken` have been shifted off. */
    ghost var pushed: seq<Entry>
    ghost var taken: nat
    /** The URLs added to `discovered`, in order. */
    ghost var found: seq<string>

    /** The invariant of the crawl loop, guide links aside. */
    ghost predicate Frontier()
      reads this
    {
      FrontierOf(pushed, found, taken, queue, startUrl, maxDepth, discovered, site, domain,
                 visited, attempts, pagesVisited, maxPages)
    }

    /** The invariant of the crawl loop. */
    ghost predicate Valid()
      reads this
    {
      && Frontier()
      // the guide links are those of every page that loaded, whatever its depth
      && guideLinks == GuidesOf(site, domain, attempts)
      && Traced(site, domain, maxDepth, startUrl, pushed, attempts, depths, discovered)
      // every entry shifted off the queue was visited, the first one by the first navigation
      && Reached(pushed, taken, visited) && (taken == 0 ==> attempts == [])
    }

    /** The initial state: the start URL queued at depth 0, everything else empty. */
    constructor (site: Site, domain: string, startUrl: string, maxDepth: nat, maxPages: nat)
      ensures Valid()
      ensures this.site == site && this.domain == domain && this.startUrl == startUrl
      ensures this.maxDepth == maxDepth && this.maxPages == maxPages
      ensures queue == [Entry(startUrl, 0)] && visited == {} && discovered == {}
      ensures guideLinks == {} && pagesVisited == 0 && attempts == [] && taken == 0
    {
      this.site, this.domain, this.startUrl := site, domain, startUrl;
      this.maxDepth, this.maxPages := maxDepth, maxPages;
      queue := [Entry(startUrl, 0)];
      visited, discovered, guideLinks := {}, {}, {};
      pagesVisited := 0;
      attempts, depths, pushed, taken, found := [], [], [Entry(startUrl, 0)], 0, [];
    }

    /** The fields one page's link loop changes. */
    ghost function Snapshot(): Tally
      reads this
    {
      Tally(queue, discovered, guideLinks, pushed, found)
    }

    /** The body of the `for (const href of hrefs)` loop for an accepted link `a` of a
        page at `depth`. */
    method AcceptLink(a: string, depth: nat)
      modifies this`queue, this`discovered, this`guideLinks, this`pushed, this`found
      ensures Snapshot() == Accept(old(Snapshot()), a, depth, maxDepth)
    {
      if Text.Contains(a, GuideMarker) {
        guideLinks := guideLinks + {a};
      }
      if depth < maxDepth && a !in discovered {
        if !Helpers.IsStaticAsset(a) {
          discovered := discovered + {a};
          queue := queue + [Entry(a, depth + 1)];
          pushed := pushed + [Entry(a, depth + 1)];
          found := found + [a];
        }
      }
    }

    /** The `for (const href of hrefs)` loop over a page loaded from `url` at `depth`:
        every accepted link that contains `/guide/` is collected, and below the depth
        limit every new non-static one is discovered and queued one level deeper. */
    method ScanLinks(url: string, depth: nat, hrefs: seq<string>)
      requires Frontier() && depth <= maxDepth
      requires hrefs == PageHrefs(site, url)
      modifies this`queue, this`discovered, this`guideLinks, this`pushed, this`found
      ensures Frontier()
      ensures Scanned(old(Snapshot()), Snapshot(), Links(site, domain, url), depth, maxDepth)
    {
      ghost var t0 := Snapshot();
      var links: seq<string> := [];
      for j := 0 to |hrefs|
        invariant links == Absolute(hrefs[..j], url, domain, site.resolve)
        invariant Scanned(t0, Snapshot(), links, depth, maxDepth)
      {
        AbsolutePush(hrefs, j, url, domain, site.resolve);
        var abs := Helpers.ToAbsoluteUrl(hrefs[j], url, domain, site.resolve);
        if abs.None? {
          continue;
        }
        var a := abs.value;
        ScanStep(t0, Snapshot(), links, a, depth, maxDepth);
        AcceptLink(a, depth);
        links := links + [a];
      }
      assert hrefs[..|hrefs|] == hrefs;
      ScanKeepsFrontier(t0, Snapshot(), site, domain, url, depth, taken, startUrl, maxDepth);
      VisitsGrow(visited, attempts, startUrl, t0.discovered, discovered);
    }

    /** `queue.shift()`: the entry at the head of the queue, removed from it. */
    method Shift() returns (e: Entry)
      requires Frontier() && queue != []
      modifies this`queue, this`taken
      ensures Frontier()
      ensures e == old(queue[0]) && queue == old(queue[1..])
      ensures e.depth <= maxDepth && (e.url == startUrl || e.url in discovered)
      ensures taken == old(taken) + 1 && e == pushed[taken - 1]
    {
      e := queue[0];
      QueueShift(pushed, found, taken, queue, startUrl, maxDepth);
      queue := queue[1..];
      taken := taken + 1;
    }

    /** `visited.add(url)` followed by `page.goto(url)` for the entry `e`: the URL is
        recorded as visited, and counted when the navigation succeeds. */
    method Arrive(e: Entry)
      requires Frontier() && e.url !in visited && pagesVisited < maxPages
      requires e.url == startUrl || e.url in discovered
      modifies this`visited, this`attempts, this`depths, this`pagesVisited
      ensures Frontier()
      ensures attempts == old(attempts) + [e.url] && visited == old(visited) + {e.url}
      ensures depths == old(depths) + [e.depth]
      ensures pagesVisited == old(pagesVisited) + if Navigates(site, e.url) then 1 else 0
    {
      ArriveStep(pushed, found, taken, queue, startUrl, maxDepth, discovered, site, domain,
                 visited, attempts, pagesVisited, maxPages, e.url);
      // `page.goto` throws before `pagesVisited += 1` when the navigation fails
      var count := pagesVisited + if Navigates(site, e.url) then 1 else 0;
      visited, attempts, depths, pagesVisited := visited + {e.url}, attempts + [e.url], depths + [e.depth], count;
    }

    /** One pass of the `while` loop for an entry `e` not yet visited: `e.url` is
        recorded as visited, and when `page.goto` succeeds the page is counted and, when
        reading its links succeeds too, its links are scanned. */
    method Visit(e: Entry)
      requires Frontier() && guideLinks == GuidesOf(site, domain, attempts)
      requires e.url !in visited && pagesVisited < maxPages
      requires e.url == startUrl || e.url in discovered
      requires e.depth <= maxDepth
      modifies this
      ensures Frontier() && guideLinks == GuidesOf(site, domain, attempts)
      ensures attempts == old(attempts) + [e.url] && visited == old(visited) + {e.url}
      ensures depths == old(depths) + [e.depth] && taken == old(taken)
      ensures Explored(site, domain, maxDepth, e, old(Snapshot()), Snapshot())
      ensures discovered == old(discovered) ==> queue == old(queue)
    {
      ghost var t0 := Snapshot();
      GuidesOfPush(site, domain, attempts, e.url);
      Arrive(e);
      match Outcome(site, e.url)
      case NavigationFails =>
        assert GuideSet(Links(site, domain, e.url)) == {};
        ExploredNothing(site, domain, maxDepth, e, t0);
      case LinksFail =>
        assert GuideSet(Links(site, domain, e.url)) == {};
        ExploredNothing(site, domain, maxDepth, e, t0);
      case Loaded(anchors) =>
        ScanLinks(e.url, e.depth, Helpers.NonEmpty(anchors));
        ScanUnchanged(t0, Snapshot(), Links(site, domain, e.url), e.depth, maxDepth);
        ScanTrace(site, domain, maxDepth, e, t0, Snapshot());
    }

    /** How many URLs of the site are still to be discovered: what bounds the crawl. */
    ghost function Undiscovered(): nat
      reads this
    {
      |Universe(site, domain) - discovered|
    }

    /** A pass whose head entry was already visited: `queue.shift()` and `continue`. */
    method SkipHead()
      requires Valid() && queue != [] && queue[0].url in visited
      modifies this`queue, this`taken
      ensures Valid() && |queue| < old(|queue|) && taken == old(taken) + 1
    {
      QueueShift(pushed, found, taken, queue, startUrl, maxDepth);
      assert queue[0] == pushed[taken];
      ReachedNext(pushed, pushed, taken + 1, visited, visited);
      queue, taken := queue[1..], taken + 1;
      assert QueueShape(pushed, found, taken, queue, startUrl, maxDepth);
      assert Reached(pushed, taken, visited);
    }

    /** A pass whose head entry was not visited yet: it is shifted off and visited, and
        the loop invariant is restored. */
    method VisitHead()
      requires Valid() && queue != [] && queue[0].url !in visited && pagesVisited < maxPages
      modifies this
      ensures Valid() && taken == old(taken) + 1
      ensures old(discovered) <= discovered
      ensures discovered == old(discovered) ==> |queue| < old(|queue|)
    {
      ghost var v0, k := visited, taken;
      assert Reached(pushed, k, v0);
      var e := Shift();
      Advance(e);
    }

    /** Visiting the entry `e` just shifted off keeps the trace and what was reached. */
    method Advance(e: Entry)
      requires Frontier() && guideLinks == GuidesOf(site, domain, attempts)
      requires Traced(site, domain, maxDepth, startUrl, pushed, attempts, depths, discovered)
      requires 1 <= taken <= |pushed| && e == pushed[taken - 1] && Reached(pushed, taken - 1, visited)
      requires taken == 1 ==> attempts == []
      requires e.url !in visited && pagesVisited < maxPages
      requires e.url == startUrl || e.url in discovered
      requires e.depth <= maxDepth
      modifies this
      ensures Valid() && taken == old(taken)
      ensures old(discovered) <= discovered
      ensures discovered == old(discovered) ==> queue == old(queue)
    {
      ghost var t0, a0, d0, v0, k := Snapshot(), attempts, depths, visited, taken;
      assert e == t0.pushed[k - 1] && Reached(t0.pushed, k - 1, v0);
      Visit(e);
      ghost var t := Snapshot();
      assert t.pushed == pushed && t.discovered == discovered && taken == k;
      TraceStep(site, domain, maxDepth, startUrl, t0.pushed, a0, d0, t0.discovered, v0, k, t0, t, e);
      ReachedNext(t0.pushed, t.pushed, k, v0, visited);
    }

    /** One pass of the `while` loop: the head of the queue is shifted off and, unless
        already visited, visited. Either more of the site is discovered, or nothing is
        and the queue is shorter. */
    method Step()
      requires Valid() && queue != [] && pagesVisited < maxPages
      modifies this
      ensures Valid()
      ensures taken == old(taken) + 1
      ensures Undiscovered() < old(Undiscovered())
              || (Undiscovered() == old(Undiscovered()) && |queue| < old(|queue|))
    {
      if queue[0].url in visited {
        SkipHead();
      } else {
        ghost var before := discovered;
        VisitHead();
        if discovered != before {
          var x :| x in discovered && x !in before;
          FewerUndiscovered(Universe(site, domain), before, discovered, x);
        }
      }
    }

    /** The `while` loop: it runs until the queue is empty or `maxPages` pages have
        loaded. */
    method Crawl()
      requires Valid()
      modifies this
      ensures Valid()
      ensures queue == [] || pagesVisited == maxPages
      ensures queue == [] ==> visited == {startUrl} + discovered
      ensures old(queue) != [] && old(pagesVisited) < maxPages ==> taken > 0
    {
      while queue != [] && pagesVisited < maxPages
        invariant Valid()
        invariant old(taken) <= taken
        invariant taken == old(taken) ==> queue == old(queue) && pagesVisited == old(pagesVisited)
        decreases Undiscovered(), |queue|
      {
        Step();
      }
      if queue == [] {
        AllVisited(pushed, found, taken, startUrl, maxDepth, visited, attempts, discovered, site, domain);
      }
    }
  }

  /** What a breadth-first crawl from `startUrl` down to `maxDepth` navigated to: `pages`
      in order, each at the depth in `depths`, having discovered `found`. The first page
      is the start URL at depth 0; every later one is a link of an earlier page, one level
      deeper; every page above the depth limit had all its links discovered, static assets
      aside; only URLs of the site that are not static assets are discovered, and every
      page is the start URL or a discovered one. */
  ghost predicate BreadthFirst(site: Site, domain: string, startUrl: string, maxDepth: nat,
                               pages: seq<string>, depths: seq<nat>, found: set<string>) {
    && pages != [] && pages[0] == startUrl
    && |depths| == |pages| && depths[0] == 0
    && (forall k :: 0 <= k < |depths| ==> depths[k] <= maxDepth)
    && (forall k :: 1 <= k < |pages| ==> LinkedFrom(site, domain, pages[k], depths[k], pages, depths, k))
    && (forall k :: 0 <= k < |pages| && depths[k] < maxDepth ==> LinksKnown(site, domain, pages[k], found))
    && (forall u :: u in found ==> !Helpers.IsStaticAsset(u) && u in Universe(site, domain))
    && (forall u :: u in pages ==> u == startUrl || u in found)
  }

  /** Runs the crawl from `startUrl` within `domain` under the configured limits and sorts
      what it collected. `pages` are the URLs it navigated to, in order, at `depths`, and
      `found` the URLs it discovered; unless the page limit cut it short, it navigated to
      every one of them. */
  method RunCrawl(site: Site, domain: string, startUrl: string)
    returns (r: CrawlResult, ghost pages: seq<string>, ghost depths: seq<nat>, ghost found: set<string>)
    ensures r.pagesVisited == NavCount(site, pages) && r.pagesVisited <= MaxPages
    ensures forall i, j :: 0 <= i < j < |pages| ==> pages[i] != pages[j]
    ensures BreadthFirst(site, domain, startUrl, MaxDepth, pages, depths, found)
    ensures r.pagesVisited < MaxPages ==> forall u :: u in found ==> u in pages
    ensures StringOrder.StrictlySorted(r.guideLinks)
    ensures forall g :: g in r.guideLinks <==> g in GuidesOf(site, domain, pages)
    ensures forall g :: g in r.guideLinks ==> Text.Contains(g, GuideMarker) && '#' !in g
  {
    var c := new Crawler(site, domain, startUrl, MaxDepth, MaxPages);
    c.Crawl();
    var sorted := StringOrder.SortSet(c.guideLinks);
    r := CrawlResult(c.pagesVisited, sorted);
    pages, depths, found := c.attempts, c.depths, c.discovered;
    assert c.pushed[0].url in c.visited;
    assert pages != [];
    GuidesMarked(site, domain, pages);
  }

  /** `crawlGuides(page, startUrl)`: `None` when `new URL(startUrl)` throws (`origin` is
      `None`), otherwise the crawl confined to the start URL's origin. */
  method CrawlGuides(site: Site, startUrl: string, origin: Option<string>)
    returns (r: Option<CrawlResult>, ghost pages: seq<string>, ghost depths: seq<nat>, ghost found: set<string>)
    ensures r.None? <==> origin.None?
    ensures r.Some? ==> r.value.pagesVisited == NavCount(site, pages) <= MaxPages
    ensures r.Some? ==> forall i, j :: 0 <= i < j < |pages| ==> pages[i] != pages[j]
    ensures r.Some? ==> BreadthFirst(site, origin.value, startUrl, MaxDepth, pages, depths, found)
    ensures r.Some? && r.value.pagesVisited < MaxPages ==> forall u :: u in found ==> u in pages
    ensures r.Some? ==> StringOrder.StrictlySorted(r.value.guideLinks)
    ensures r.Some? ==> forall g :: g in r.value.guideLinks <==> g in GuidesOf(site, origin.value, pages)
    ensures r.Some? ==> forall g :: g in r.value.guideLinks ==> Text.Contains(g, GuideMarker) && '#' !in g
    ensures r.Some? && '#' !in origin.value ==>
              forall g :: g in r.value.guideLinks ==> Text.StartsWith(g, origin.value)
  {
    if origin.None? {
      return None, [], [], {};
    }
    var res;
    res, pages, depths, found := RunCrawl(site, origin.value, startUrl);
    if '#' !in origin.value {
      GuidesStartWithDomain(site, origin.value, pages);
    }
    r := Some(res);
  }

  /** The start page and origin of `Scraping/WildRiftFire/Links.js`. */
  const SiteStart := "https://www.wildriftfire.com/"
  const SiteOrigin := "https://www.wildriftfire.com"

  lemma SiteOriginPlain()
    ensures '#' !in SiteOrigin
  {
  }

  /** `guides.txt`: the sorted links, one per line, each line ended by a newline. */
  function GuidesText(sorted: seq<string>): string {
    Text.Join(sorted, '\n') + "\n"
  }

  /** Reading `guides.txt` back line by line gives the links, then the empty text after
      the last newline; with no link the file is a single newline. */
  lemma GuidesTextLines(sorted: seq<string>)
    requires forall i :: 0 <= i < |sorted| ==> '\n' !in sorted[i]
    ensures sorted == [] ==> GuidesText(sorted) == "\n"
    ensures sorted != [] ==> Text.Split(GuidesText(sorted), '\n') == sorted + [""]
  {
    if sorted != [] {
      Text.JoinSnoc(sorted, "", '\n');
      assert Text.Join(sorted, '\n') + "\n" == Text.Join(sorted, '\n') + ['\n'] + "";
      Text.SplitJoin(sorted + [""], '\n');
    }
  }

  /** The script `Scraping/WildRiftFire/Links.js`: the crawl from the site's home page,
      and the text it writes to `guides.txt`. */
  method CrawlSite(site: Site)
    returns (r: CrawlResult, text: string, ghost pages: seq<string>, ghost depths: seq<nat>, ghost found: set<string>)
    ensures r.pagesVisited == NavCount(site, pages) <= MaxPages
    ensures forall i, j :: 0 <= i < j < |pages| ==> pages[i] != pages[j]
    ensures BreadthFirst(site, SiteOrigin, SiteStart, MaxDepth, pages, depths, found)
    ensures r.pagesVisited < MaxPages ==> forall u :: u in found ==> u in pages
    ensures StringOrder.StrictlySorted(r.guideLinks)
    ensures forall g :: g in r.guideLinks <==> g in GuidesOf(site, SiteOrigin, pages)
    ensures forall g :: g in r.guideLinks ==> Text.StartsWith(g, SiteOrigin) && Text.Contains(g, GuideMarker)
    ensures text == GuidesText(r.guideLinks)
  {
    r, pages, depths, found := RunCrawl(site, SiteOrigin, SiteStart);
    SiteOriginPlain();
    GuidesStartWithDomain(site, SiteOrigin, pages);
    text := GuidesText(r.guideLinks);
  }
}
