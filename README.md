# WildBoss scrapers, modelled in Dafny

WildBoss collects League of Legends: Wild Rift data from two sources. This project models
and proves properties of its core:

- **Guide crawler** (`GuideCrawler`, crawler.dfy). This is the breadth-first crawl of
  `crawlGuides` and of the `Links.js` script. A queue of `{ url, depth }` entries is read
  with the `visited`, `discovered` and `guideLinks` sets and the `pagesVisited` counter,
  under the depth limit 2 and the page limit 200. The result is the sorted guide links and
  the `guides.txt` text. The crawler is a class whose methods update its fields. The loop
  invariant says five things:
  - the queue is the unshifted part of every entry ever queued;
  - every entry shifted off has its URL visited, and no URL is navigated to twice;
  - the guide links are exactly those of the pages visited;
  - the pages form a breadth-first trace: the start URL first at depth 0, every later
    page and every queued entry a link of an earlier page one level deeper;
  - every page above the depth limit had all its links discovered, static assets aside.

  So a crawl that the page limit does not stop navigates to every URL it discovers.
- **String helpers** (`Helpers`, helpers.dfy): `slugFromUrl`, `parseJsonFromClass` and
  `toAbsoluteUrl`.
- **Tooltip extractor** (`TooltipScraper`, tooltip.dfy). This is `extractTooltipData` and
  its item-only and rune-only copies in `Items.js` and `Runes.js`:
  - up to five hover attempts per tier-list holder;
  - one record filled field by field, so a failed attempt's writes stay in it;
  - each holder classified as kept or failed;
  - the partial file rewritten every ten holders and after the last one.
- **Champion page extraction** (`ChampionPage`, champion.dfy). This is the shaping done
  inside `extractData`, `extractAllData` and `fastExtractAll`: abilities, stats at levels
  1 to 15, builds, runes and spells, situational items and skill orders. It also covers the
  level loops of both `Champions.js` scripts.
- **Stats panel** (`StatsPanel`, statspanel.dfy). This is the open test, the physical
  click and the bounded "open the stats panel" loop of both `Champions.js` scripts.
- **Batch driver** (`ChampionBatch`, batch.dfy). This is the URL list read from
  `guides.txt` and the loop that scrapes each URL, keeping the records that succeed.
- **Tier list** (`TierList`, tierlist.dfy). This is the lolmqq `ChampionDataProcessor`:
  `processChampion` without the rates, `getTierLabel`, `processRawData` and
  `getProcessingStats`.

Shared modules model the JavaScript built-ins the code relies on:

| module | models |
|---|---|
| `Text` | `trim`, `replace(/\s+/g, ' ')`, `split`, `join`, `includes`, `startsWith` |
| `JsNumber` | `parseInt` and the NaN test of `parseFloat` |
| `JsObject` | objects as ordered property lists, with `o[k] = v`, `Object.keys` and `Object.fromEntries` |
| `StringOrder` | the order of `Array.prototype.sort` on strings |
| `Wrappers` | `Option` |

The browser, the network, the URL parser and `JSON.parse` are parameters of the model:
- a map from URL to page outcome;
- functions that give `None` where the library throws;
- observation functions for what the page shows at each attempt or level.

## Model

| member | source | states |
|---|---|---|
| Helpers.NonEmpty | lib/utils/helpers.js:5 | `filter(Boolean)` keeps exactly the non-empty parts, in order; the result is empty iff every part is empty |
| Helpers.LastSegment | lib/utils/helpers.js:5-6 | the slug is a non-empty segment without `/` |
| Helpers.SlugFromUrl | lib/utils/helpers.js:3-10 | a URL that does not parse gives the fallback; otherwise the last segment or the fallback |
| Helpers.LastSegmentTrailingSlash | lib/utils/helpers.js:5-6 | a trailing slash does not change the slug |
| Helpers.LastSegmentAfterSlash | lib/utils/helpers.js:5-6 | the slug of `prefix/seg` is `seg` for a non-empty `seg` without slashes |
| Helpers.LastSegmentNone | lib/utils/helpers.js:6 | there is no segment (so the fallback is used) exactly when the pathname is all slashes |
| Helpers.CloseFrom | lib/utils/helpers.js:14 | finds the closing `}` of a lazy `{.*?}` match, or proves there is none before a line terminator |
| Helpers.FindBraces | lib/utils/helpers.js:14 | the leftmost match of `/\{.*?\}/`: no match starts earlier, and `None` means no match at all |
| Helpers.ParseJsonFromClass | lib/utils/helpers.js:12-21 | null for an empty attribute or when there is no `{…}` fragment; whenever there is one, exactly `JSON.parse` of the leftmost shortest fragment with `'` replaced by `"` |
| Helpers.ToAbsoluteUrl | lib/utils/helpers.js:23-31 | a value iff resolution succeeds and starts with `domain`; the value has no `#` and is the resolved URL cut at its first `#` |
| Helpers.AbsoluteUrlStable | lib/utils/helpers.js:26-27 | the result starts with the domain, and cutting it at `#` again changes nothing |
| GuideCrawler.PageHrefs | lib/scrapers/guideCrawler.js:4-6 | `extractLinks`: only non-empty hrefs; none for a page that did not load |
| GuideCrawler.Absolute | lib/scrapers/guideCrawler.js:48-50 | the accepted absolute links of a page have no `#` |
| GuideCrawler.InAbsolute | lib/scrapers/guideCrawler.js:48-50 | a link is accepted exactly when `toAbsoluteUrl` maps some href of the page to it |
| GuideCrawler.InGuideSet | lib/scrapers/guideCrawler.js:52 | a link is collected from a page iff it is accepted there and contains `/guide/` |
| GuideCrawler.GuideCollected | lib/scrapers/guideCrawler.js:47-52 | every guide link on any page that was visited is collected, whatever the depth |
| GuideCrawler.GuideSource | lib/scrapers/guideCrawler.js:47-52 | every collected guide link comes from a page that was visited |
| GuideCrawler.GuidesMarked | lib/scrapers/guideCrawler.js:49-52 | every collected link contains `/guide/` and has no fragment |
| GuideCrawler.GuidesStartWithDomain | lib/scrapers/guideCrawler.js:29-52 | every collected link starts with the crawl's origin |
| GuideCrawler.NavCount | lib/scrapers/guideCrawler.js:43-44 | pages counted never exceed the navigations, and are zero iff no navigation succeeded |
| GuideCrawler.Fresh | lib/scrapers/guideCrawler.js:54-59 | links queued from a page are new, not static assets, each once; every new non-static link is queued |
| GuideCrawler.QueueShift | lib/scrapers/guideCrawler.js:38 | the shifted entry is the start URL or a discovered URL, within the depth limit |
| GuideCrawler.QueueAppend | lib/scrapers/guideCrawler.js:57-58 | pushing entries one level deeper, within the limit, keeps the queue's history shape |
| GuideCrawler.DiscoverFresh | lib/scrapers/guideCrawler.js:54-57 | discovered URLs stay distinct, free of static assets and linked from the site |
| GuideCrawler.VisitAdd | lib/scrapers/guideCrawler.js:39-40 | marking an unvisited URL visited before navigation keeps every URL navigated at most once |
| GuideCrawler.ScanStep | lib/scrapers/guideCrawler.js:48-60 | one accepted link keeps the link loop's invariant: guides collected before the depth check, new links queued below the limit |
| GuideCrawler.ScanKeepsFrontier | lib/scrapers/guideCrawler.js:48-60 | scanning a page keeps the queue shape and the discovered set's properties |
| GuideCrawler.ScanUnchanged | lib/scrapers/guideCrawler.js:54-59 | a page that discovers nothing (at the depth limit, for instance) queues nothing |
| GuideCrawler.FewerUndiscovered | lib/scrapers/guideCrawler.js:37-67 | each discovery shrinks the finite set of links still undiscovered, so the crawl ends |
| GuideCrawler.Crawler.constructor | lib/scrapers/guideCrawler.js:29-35 | the start URL is queued at depth 0, and the sets and counter start empty |
| GuideCrawler.Crawler.AcceptLink | lib/scrapers/guideCrawler.js:52-60 | one link: collected if it contains `/guide/`; discovered and queued below the depth limit unless already discovered or a static asset |
| GuideCrawler.Crawler.ScanLinks | lib/scrapers/guideCrawler.js:47-61 | the link loop of a loaded page, against the specification `Scanned` |
| GuideCrawler.Crawler.Shift | lib/scrapers/guideCrawler.js:38 | `queue.shift()` removes the head, which lies within the depth limit |
| GuideCrawler.Crawler.Arrive | lib/scrapers/guideCrawler.js:40-44 | the URL is recorded as visited; the counter grows iff navigation succeeds |
| GuideCrawler.ExploredNothing | lib/scrapers/guideCrawler.js:42-66 | a page whose navigation or link read throws queues and discovers nothing |
| GuideCrawler.ScanTrace | lib/scrapers/guideCrawler.js:47-61 | scanning a loaded page queues only its own links, one level deeper, and above the depth limit leaves none of its non-static links undiscovered |
| GuideCrawler.LinkedFromWitness | lib/scrapers/guideCrawler.js:54-58 | a traced link names an earlier page, one level shallower, whose links contain it |
| GuideCrawler.TraceStep | lib/scrapers/guideCrawler.js:38-61 | visiting the next shifted entry keeps the breadth-first trace: the start URL first at depth 0, every later page and every queued entry a link of an earlier page one level deeper, every page above the depth limit with all its links discovered |
| GuideCrawler.ReachedNext | lib/scrapers/guideCrawler.js:38-40 | every entry shifted off the queue so far has its URL visited |
| GuideCrawler.AllVisited | lib/scrapers/guideCrawler.js:37-40 | once the queue is empty the visited URLs are exactly the start URL and the discovered ones |
| GuideCrawler.Crawler.Visit | lib/scrapers/guideCrawler.js:40-66 | the URL is visited once; a failed navigation or link read queues nothing; a loaded page queues only its own links, one level deeper, and above the depth limit discovers every one that is not a static asset |
| GuideCrawler.Crawler.SkipHead | lib/scrapers/guideCrawler.js:38-39 | an already visited head is dropped: the invariant holds and the queue is shorter |
| GuideCrawler.Crawler.VisitHead | lib/scrapers/guideCrawler.js:38-66 | an unvisited head is shifted off and visited; the invariant holds again; more is discovered or the queue is shorter |
| GuideCrawler.Crawler.Advance | lib/scrapers/guideCrawler.js:40-66 | visiting the entry just shifted off restores the whole invariant, trace and visited entries included |
| GuideCrawler.Crawler.Step | lib/scrapers/guideCrawler.js:37-67 | a pass of the loop either discovers more of the site or shortens the queue |
| GuideCrawler.Crawler.Crawl | lib/scrapers/guideCrawler.js:37-67 | the loop ends with an empty queue or with `maxPages` pages loaded; with an empty queue the visited URLs are exactly the start URL and every discovered one |
| GuideCrawler.RunCrawl | lib/scrapers/guideCrawler.js:28-73 | at most 200 pages counted and no URL navigated twice; the first page is the start URL at depth 0, every later one a link of an earlier page one level deeper, every page above depth 2 had all its links discovered; unless the 200-page limit stopped it, every discovered URL was navigated to; the guide links are sorted, duplicate-free and exactly those of the visited pages |
| GuideCrawler.CrawlGuides | lib/scrapers/guideCrawler.js:28-73 | a start URL without an origin throws; otherwise the crawl's result with the same breadth-first and completeness guarantees, every guide link under the origin |
| GuideCrawler.GuidesTextLines | Scraping/WildRiftFire/Links.js:93-95 | the links joined by newlines plus a final newline read back as those lines and an empty last line |
| GuideCrawler.CrawlSite | Scraping/WildRiftFire/Links.js:7-95 | the script's crawl from the home page: the same breadth-first and completeness guarantees, and the `guides.txt` text |
| StringOrder.SortSet | lib/scrapers/guideCrawler.js:71 | `Array.from(set).sort()`: strictly sorted, the same elements, one each |
| StringOrder.SortedUnique | lib/scrapers/guideCrawler.js:71 | two strictly sorted lists with the same elements are equal, so the sorted output is determined |
| TooltipScraper.CostOf | lib/scrapers/tooltipScraper.js:74-76 | the cost is text iff it has no digit, else the number its digits spell |
| TooltipScraper.CostOfSeparated | lib/scrapers/tooltipScraper.js:75 | `1,250` reads as 1250, and a digit string reads as its value |
| TooltipScraper.CleanStatsClean | lib/scrapers/tooltipScraper.js:81-84 | every stats entry is non-empty and already trimmed |
| TooltipScraper.CleanStatsCount | lib/scrapers/tooltipScraper.js:81-84 | one entry per span when none is blank; none when all are |
| TooltipScraper.CleanStatsAppend | lib/scrapers/tooltipScraper.js:81-84 | stats keep document order |
| TooltipScraper.RuneType | lib/scrapers/tooltipScraper.js:96-97 | `'rune'` iff the class contains `tt--rune`; otherwise `'unknown'` |
| TooltipScraper.ItemReadinessStricter | lib/scrapers/tooltipScraper.js:44-57 | the item content check implies the rune check, and a title-only tooltip satisfies only the rune check |
| TooltipScraper.LayoutOf | lib/scrapers/tooltipScraper.js:63-99 | the order of the reads: image, title, then cost, stats and uniques for items, or uniques and type for runes |
| TooltipScraper.CompleteFills | lib/scrapers/tooltipScraper.js:63-99 | a complete attempt sets every field its tooltip provides, by the field rules |
| TooltipScraper.ReadSpan | lib/scrapers/tooltipScraper.js:82-83 | one span pushes its trimmed text iff that is non-empty |
| TooltipScraper.ReadStats | lib/scrapers/tooltipScraper.js:79-84 | the span loop resets the list, then reads spans until all are read or one throws |
| TooltipScraper.ReadImage | lib/scrapers/tooltipScraper.js:65-66 | image lookup and `src`, or the read that throws |
| TooltipScraper.ReadTitle | lib/scrapers/tooltipScraper.js:68-69 | the trimmed title becomes `name` |
| TooltipScraper.ReadCost | lib/scrapers/tooltipScraper.js:72-77 | the item cost, by `CostOf` |
| TooltipScraper.ReadStatsSection | lib/scrapers/tooltipScraper.js:79-84 | the stats lookup and spans |
| TooltipScraper.ReadUniques | lib/scrapers/tooltipScraper.js:87-91 | the trimmed markup goes under `uniques` for items and `description` for runes |
| TooltipScraper.ReadType | lib/scrapers/tooltipScraper.js:93-99 | the rune type is set only when `.tt` exists |
| TooltipScraper.Extract | lib/scrapers/tooltipScraper.js:63-99 | the record after an attempt's reads, up to the first that throws; earlier writes persist |
| TooltipScraper.TryOnce | lib/scrapers/tooltipScraper.js:34-106 | an attempt succeeds iff it is ready, the container is found and no read throws; a missing container writes nothing |
| TooltipScraper.Try | lib/scrapers/tooltipScraper.js:34-106 | the attempt's body agrees with `TryOnce` |
| TooltipScraper.Attempts | lib/scrapers/tooltipScraper.js:33-110 | at most 5 attempts; the loop stops at the first that succeeds; every earlier one failed |
| TooltipScraper.RunAttempts | lib/scrapers/tooltipScraper.js:32-110 | the attempt loop agrees with `Attempts` |
| TooltipScraper.SuccessFills | lib/scrapers/tooltipScraper.js:33-110 | the fields the succeeding tooltip provides hold its values |
| TooltipScraper.TryKeepsShape | lib/scrapers/tooltipScraper.js:63-99 | items never get `description` or `type`, and runes never get `cost`, `stats` or `uniques` |
| TooltipScraper.AttemptsKeepShape | lib/scrapers/tooltipScraper.js:33-110 | the shape holds across all attempts |
| TooltipScraper.Process | lib/scrapers/tooltipScraper.js:15-131 | kept iff an attempt succeeded and the name is non-empty; otherwise `elementId ?? i` is pushed; a late throw pushes it too |
| TooltipScraper.Settle | lib/scrapers/tooltipScraper.js:112-131 | the classification, the save when due, and the pointer move |
| TooltipScraper.ProcessHolder | lib/scrapers/tooltipScraper.js:15-131 | the holder loop's body agrees with `Process` |
| TooltipScraper.Finish | lib/scrapers/tooltipScraper.js:112-131 | the code after the attempt loop agrees with `Settle` |
| TooltipScraper.ExtractTooltipData | lib/scrapers/tooltipScraper.js:6-139 | the results, failed ids and partial-file contents of the whole run |
| TooltipScraper.Record | lib/scrapers/tooltipScraper.js:112-123 | the pushes after one holder, and the save of the whole list |
| TooltipScraper.CollectCounts | lib/scrapers/tooltipScraper.js:112-131 | at most one record per holder; records plus failed ids account for every holder, exactly once when nothing throws outside the attempts |
| TooltipScraper.CollectOrigin | lib/scrapers/tooltipScraper.js:112-113 | every record is the record of some holder |
| TooltipScraper.CollectAppend | lib/scrapers/tooltipScraper.js:112-118 | `results` and `failed` keep the order of the holders |
| TooltipScraper.CollectOne | lib/scrapers/tooltipScraper.js:112-118 | one holder adds its record when it has one, and its failed ids |
| TooltipScraper.SavesArePrefixes | lib/scrapers/tooltipScraper.js:120-122 | each save holds the whole list so far: a prefix of the next save and of the results |
| TooltipScraper.LastSaveIsComplete | lib/scrapers/tooltipScraper.js:120-122 | a save after the last holder holds exactly the results |
| TooltipScraper.SaveCount | lib/scrapers/tooltipScraper.js:120 | at most one save per full batch of 10, plus one at the end |
| TooltipScraper.HolderShaped | lib/scrapers/tooltipScraper.js:63-118 | a kept record is named and has its kind's shape |
| TooltipScraper.RunCounts | lib/scrapers/tooltipScraper.js:14-132 | the count guarantees for a whole run |
| TooltipScraper.RunSaves | lib/scrapers/tooltipScraper.js:120-123 | the save cadence; unless the last write throws, the last save is the returned list |
| TooltipScraper.RunRecords | lib/scrapers/tooltipScraper.js:112-113 | every returned record is named and shaped |
| TooltipScraper.ExtractItemData | Scraping/WildRiftFire/Items.js:37-163 | items are named, with clean stats and no rune fields; counts bounded by the holders |
| TooltipScraper.ExtractRuneData | Scraping/WildRiftFire/Runes.js:37-153 | runes are named, with no item fields and a type of `'rune'` or `'unknown'` |
| TooltipScraper.StaleAttempts | lib/scrapers/tooltipScraper.js:19-69 | a name read by an attempt that later throws stays when the next attempt finds no title |
| TooltipScraper.StaleNameKept | lib/scrapers/tooltipScraper.js:19-113 | such a holder is kept with the stale name |
| ChampionPage.FirstSpan | lib/scrapers/championScraper.js:30 | `querySelector('span')`: the first span child, or proof there is none |
| ChampionPage.AbilityOf | lib/scrapers/championScraper.js:25-51 | `key` iff a wrapper with a span; `name` iff a wrapper; trimmed cooldown and cost lists; description iff `.lower` |
| ChampionPage.FirstSpanAfter | lib/scrapers/championScraper.js:30-31 | `querySelector('span')` finds the first span child |
| ChampionPage.AbilityWithSpan | lib/scrapers/championScraper.js:26-36 | `key` is the first span's trimmed text; `name` is the wrapper's text without exactly that span, white space collapsed |
| ChampionPage.AbilityFields | lib/scrapers/championScraper.js:26-51 | no wrapper gives no key or name; a wrapper without a span gives no key and its whole text collapsed as name; the icon is the image `src`; the description is the trimmed markup and collapsed text of `.lower` |
| ChampionPage.AbilityNameShape | lib/scrapers/championScraper.js:35 | a name has no white space at either end and no white-space runs |
| ChampionPage.AbilitiesOf | lib/scrapers/championScraper.js:23-54 | one ability per block, in order |
| ChampionPage.EntryOf | lib/scrapers/championScraper.js:69-73 | which stat blocks count: with the elements present, or also non-empty (`Champions.js`) |
| ChampionPage.Normalise | lib/scrapers/championScraper.js:75-76 | a value is text iff `parseFloat` of it without commas is NaN |
| ChampionPage.RawOf | lib/scrapers/championScraper.js:66-78 | `raw` never repeats a label |
| ChampionPage.RawHasKey | lib/scrapers/championScraper.js:68-74 | a label is in `raw` iff some kept block carries it |
| ChampionPage.RawLast | lib/scrapers/championScraper.js:74 | a later block with the same label overwrites the value |
| ChampionPage.RawNonEmpty | Scraping/WildRiftFire/Champions.js:107-109 | under the non-empty rule, no label or value is empty |
| ChampionPage.RawTrimmed | lib/scrapers/championScraper.js:72-73 | every stored value is already trimmed |
| ChampionPage.LevelKeys | lib/scrapers/championScraper.js:74-76 | `stats` and `raw` have the same keys in the same order |
| ChampionPage.ExtractStatsForLevel | lib/scrapers/championScraper.js:58-81 | the block loop builds `raw` and `stats` from the specification |
| ChampionPage.StatsByLevel | lib/scrapers/championScraper.js:83-86 | 15 entries, levels 1 to 15 in order, each with matching `stats` and `raw` |
| ChampionPage.NumberOrString | Scraping/WildRiftFire_legacy/Champions.js:163-168 | null gives the empty text; otherwise the trimmed text converted |
| ChampionPage.LegacyValue | Scraping/WildRiftFire_legacy/Champions.js:163-168 | on trimmed text it agrees with `Normalise` |
| ChampionPage.LegacyStatsAgree | Scraping/WildRiftFire_legacy/Champions.js:254 | converting `raw` afterwards gives the same `stats` as converting while reading |
| ChampionPage.ReadRaw | Scraping/WildRiftFire_legacy/Champions.js:170-184 | `extractStats` / `extractStatsForCurrentLevel` build `raw` from the specification |
| ChampionPage.Convert | Scraping/WildRiftFire/Champions.js:172-177 | `Object.fromEntries` of the converted entries keeps the keys |
| ChampionPage.LevelLoop | Scraping/WildRiftFire/Champions.js:169-179 | the script's level loop: 15 levels, in order, with matching keys |
| ChampionPage.KeepComplete | lib/scrapers/championScraper.js:93-101 | `map` then `filter(Boolean)` never yields more entries than holders |
| ChampionPage.KeepCompleteAppend | lib/scrapers/championScraper.js:93-101 | holders are filtered independently, in document order |
| ChampionPage.KeepCompleteBounds | lib/scrapers/championScraper.js:96-101 | all holders complete gives one entry each; none complete gives none |
| ChampionPage.KeepCompleteOrigin | lib/scrapers/championScraper.js:96-100 | every entry comes from a holder with both an image and a name |
| ChampionPage.EnchantRule | lib/scrapers/championScraper.js:99-131 | `isEnchant` iff the class or a descendant; `isKeystone` iff the image has class `keystone` |
| ChampionPage.BuildOf | lib/scrapers/championScraper.js:104-111 | `isActive` iff the block lacks `inactive`; the four item lists are filtered |
| ChampionPage.RunesAndSpellsOf | lib/scrapers/championScraper.js:119-140 | the spells and runes are filtered holders; `isActive` as for builds |
| ChampionPage.SituationsOf | lib/scrapers/championScraper.js:149-162 | every situation kept has at least one item |
| ChampionPage.SituationsAppend | lib/scrapers/championScraper.js:149-162 | situations keep section order |
| ChampionPage.SituationOfOne | lib/scrapers/championScraper.js:150-161 | a section counts iff it has a label and at least one complete holder |
| ChampionPage.CollectSituations | lib/scrapers/championScraper.js:148-162 | the `forEach` push loop agrees with `SituationsOf` |
| ChampionPage.LitLevels | lib/scrapers/championScraper.js:181-184 | no kept level is 0 (NaN is dropped as well) |
| ChampionPage.LitLevelsOfNumbers | lib/scrapers/championScraper.js:181-184 | a positive decimal level is kept with its value, in order |
| ChampionPage.LitLevelsOne | lib/scrapers/championScraper.js:181-184 | an absent or empty `level` attribute, or one that parses to NaN or 0, adds nothing; otherwise its parsed value is kept, in order |
| ChampionPage.SkillAbilitiesOf | lib/scrapers/championScraper.js:177-187 | rows without a span name are skipped |
| ChampionPage.SkillAbilitiesAppend | lib/scrapers/championScraper.js:177-187 | the skill rows are kept in document order |
| ChampionPage.SkillAbilityOfOne | lib/scrapers/championScraper.js:178-186 | a row with a non-blank span name gives that trimmed name with its lit levels; any other row gives nothing |
| ChampionPage.CollectSkillAbilities | lib/scrapers/championScraper.js:176-187 | the push loop agrees with `SkillAbilitiesOf` |
| ChampionPage.ExtractData | lib/scrapers/championScraper.js:21-213 | every section of the record, one entry per block, and 15 stat levels |
| StatsPanel.IsStatsOpen | Scraping/WildRiftFire/Champions.js:16-23 | open iff the section exists, is displayed, has positive height and an offset parent |
| StatsPanel.IsStatsOpenLegacy | Scraping/WildRiftFire_legacy/Champions.js:29-39 | a missing section is closed; otherwise it is open when visible or when `#range` exists |
| StatsPanel.OpenTestsCompared | Scraping/WildRiftFire_legacy/Champions.js:29-39 | the legacy test accepts all the current one does, plus a hidden section with a slider |
| StatsPanel.Centre | Scraping/WildRiftFire/Champions.js:46 | the pointer target lies inside the bounding box |
| StatsPanel.PhysicalClick | Scraping/WildRiftFire/Champions.js:25-56 | false without a button, visibility or box; true once the pointer is sent, even if it throws |
| StatsPanel.PhysicalClickByClass | Scraping/WildRiftFire_legacy/Champions.js:41-88 | the same, with the legacy visibility test; false when the pointer and the forced click both throw |
| StatsPanel.ClicksCompared | Scraping/WildRiftFire_legacy/Champions.js:51-87 | where the two presses agree, and which cases only one of them accepts |
| StatsPanel.EnsureStatsOpen | Scraping/WildRiftFire/Champions.js:58-83 | no click if open; at most 7 presses, stopping when `#range` appears; forced display iff all fail and the section is still closed |
| StatsPanel.EnsureStatsOpenByClass | Scraping/WildRiftFire_legacy/Champions.js:90-140 | the same loop with `MAX_OPEN_ATTEMPTS = 7`; it also stops when the button is gone and the panel counts as open |
| ChampionBatch.NonBlank | Scraping/WildRiftFire/Run.js:192 | `filter(line => line.trim())` keeps only non-blank lines |
| ChampionBatch.NonBlankAppend | Scraping/WildRiftFire/Run.js:192 | lines keep file order |
| ChampionBatch.NonBlankKeepsAll | Scraping/WildRiftFire/Run.js:192 | lines that are not blank are kept whole and untrimmed |
| ChampionBatch.NonBlankDropsAll | Scraping/WildRiftFire/Run.js:192 | blank lines vanish |
| ChampionBatch.NonBlankFrom | Scraping/WildRiftFire/Run.js:192 | every URL is a line of the file |
| ChampionBatch.UrlList | Scraping/WildRiftFire_legacy/Run.js:245 | every URL is non-blank and newline-free |
| ChampionBatch.UrlListOfLines | Scraping/WildRiftFire/Run.js:192 | a file of non-blank lines reads back as exactly those lines |
| ChampionBatch.UrlListBlankTail | Scraping/WildRiftFire/Run.js:192 | a trailing newline adds no URL |
| ChampionBatch.RecordOf | Scraping/WildRiftFire/Run.js:178-189 | the record carries the URL and data; its slug falls back to `champion` |
| ChampionBatch.Scraped | Scraping/WildRiftFire/Run.js:204-223 | never more records than URLs |
| ChampionBatch.ScrapeAll | Scraping/WildRiftFire_legacy/Run.js:262-283 | the loop agrees with `Scraped`: a throwing URL is skipped and the loop goes on |
| ChampionBatch.ScrapedAppend | Scraping/WildRiftFire/Run.js:204-223 | results keep URL order |
| ChampionBatch.ScrapedOne | Scraping/WildRiftFire/Run.js:213-218 | a URL adds its record iff it scrapes |
| ChampionBatch.ScrapedFrom | Scraping/WildRiftFire/Run.js:213-216 | every record comes from a listed URL that scraped, with that URL's data |
| ChampionBatch.ScrapedAll | Scraping/WildRiftFire/Run.js:204-223 | when every URL scrapes, there is one record per URL, in order |
| ChampionBatch.ScrapedNone | Scraping/WildRiftFire/Run.js:204-223 | when no URL scrapes, there are no records |
| TierList.TierLabel | Scraping/lolmqq/processChampions.js:77-80 | null for a falsy tier (0 included) or an unknown or empty translation |
| TierList.ProcessChampion | Scraping/lolmqq/processChampions.js:43-57 | the name is the translation or `Hero_<id>`; `rankCount` defaults to 0 when falsy |
| TierList.HeroesOf | Scraping/lolmqq/processChampions.js:125-132 | an array division maps one to one, in order; any other becomes `[]` |
| TierList.RoleNameOfIndex | Scraping/lolmqq/processChampions.js:103-108 | role index `n` is named by `routes[n + 1]` when that entry is non-empty, and is skipped otherwise |
| TierList.DanLabel | Scraping/lolmqq/processChampions.js:115-122 | the division label when `dans` has the index |
| TierList.Translated | Scraping/lolmqq/processChampions.js:101-133 | the rekeyed object never repeats a key |
| TierList.TranslatedHasKey | Scraping/lolmqq/processChampions.js:105-120 | a name is a key iff some index translates to it; untranslated indices are skipped |
| TierList.TranslatedLast | Scraping/lolmqq/processChampions.js:110-126 | under a name, the value comes from the last index translated to it |
| TierList.TranslatedWeight | Scraping/lolmqq/processChampions.js:101-133 | rekeying never adds weight |
| TierList.TranslatedWeightExact | Scraping/lolmqq/processChampions.js:101-133 | an injective, total translation keeps the weight exactly |
| TierList.ProcessRole | Scraping/lolmqq/processChampions.js:113-133 | the division loop agrees with `DivisionsOf` |
| TierList.ProcessRawData | Scraping/lolmqq/processChampions.js:85-137 | throws iff the input is missing or `result !== 0`; otherwise `result` is 0, with the source meta and the rekeyed data |
| TierList.CountRole | Scraping/lolmqq/processChampions.js:182-184 | the inner counting loop sums the division lengths |
| TierList.GetProcessingStats | Scraping/lolmqq/processChampions.js:172-193 | role count, first role's division count and champion total; all zero without roles |
| TierList.TotalBound | Scraping/lolmqq/processChampions.js:101-193 | the output never counts more champions than the API sent |
| TierList.TotalExact | Scraping/lolmqq/processChampions.js:101-193 | with an injective, total translation it counts exactly the champions in array divisions |
| TierList.DataLookup | Scraping/lolmqq/processChampions.js:101-110 | a role name is present iff some index translates to it, holding the last such role's divisions |
| TierList.DataSkips | Scraping/lolmqq/processChampions.js:105-108 | an untranslated role name is absent |
| TierList.DivisionSkips | Scraping/lolmqq/processChampions.js:117-120 | an untranslated division label is absent |
| TierList.DivisionLookup | Scraping/lolmqq/processChampions.js:122-132 | under a label, the champions of the last division translated to it |
| JsObject.Get | lib/scrapers/championScraper.js:74 | `o[k]` is defined iff the key is present, with a value stored under it |
| JsObject.Assign | lib/scrapers/championScraper.js:74 | an existing key is replaced in place, and a new key is appended |
| JsObject.AssignGetSame | lib/scrapers/championScraper.js:74 | after `o[k] = v`, `o[k]` reads `v` |
| JsObject.AssignGetOther | lib/scrapers/championScraper.js:74 | other keys are unchanged |
| JsObject.AssignKeys | lib/scrapers/championScraper.js:74 | `Object.keys` grows by the key iff it is new |
| JsObject.MapValuesAssign | Scraping/WildRiftFire/Champions.js:172-177 | converting afterwards equals assigning converted values |
| JsNumber.ParseIntOfString | lib/scrapers/championScraper.js:183 | `parseInt(String(n)) == n` |
| JsNumber.NoDigitIsNaN | lib/scrapers/championScraper.js:75-76 | a value with no digit (and no `Infinity`) stays text |
| JsNumber.LeadingDigitIsNumber | lib/scrapers/championScraper.js:75-76 | a value starting with a digit becomes a number |
| Text.SquishShape | lib/scrapers/championScraper.js:35-73 | `replace(/\s+/g, ' ').trim()` has no edge spaces and no runs |
| Text.TrimIdempotent | lib/scrapers/tooltipScraper.js:69-82 | trimming twice is trimming once |
| Text.SplitJoin | Scraping/WildRiftFire/Run.js:192 | splitting a join of newline-free lines gives them back |

## Left out

- Playwright is an oracle. Navigation, hovering, waiting, timeouts, sleeps and the pointer are not modelled:
  - `setLevel`'s wait for the level label is assumed to succeed; the page contents at each level are a parameter;
  - `ensureStatsVisible`, `openStatsQuick` and banner dismissal are not part of this model.
- In-page scrolling (`scrollPage`, `autoScroll`) is timer-driven page script and is not part of this model.
- The WHATWG URL parser and `JSON.parse` (RFC 8259) are parameters. Only the prefix, fragment and segment logic around them is modelled.
- File reads and writes are values:
  - the text of `guides.txt`;
  - the sequence of partial-file contents;
  - the JSON output files are not modelled.
- Console logging, clocks (`scrapedAt`, `timestamp`) and the `HEADLESS` variable are not modelled.
- Floating point is not modelled:
  - ChampionPage.Normalise: a numeric stat keeps the comma-free text `parseFloat` reads, not the float value;
  - TierList.ProcessChampion: the four rates (`parseRate`) are not modelled.
- JsObject: integer-like property keys, which JavaScript enumerates first in numeric order, are kept in insertion order like other keys.
- TierList: `undefined` and `null` are the same absent value, and a `label_ptbr` is taken to be a string.
- TierList: a non-object role or division value is taken to be an object with no properties.
- ChampionPage: the nodes of an ability's name wrapper are text, spans and elements without nested spans.
  - `querySelector('span')` inside a nested element is not modelled.
- StatsPanel.PhysicalClickByClass: the legacy visibility check is observed once per press, as the oracle reports it.
- StringOrder: strings compare by character, which is UTF-16 code-unit order only for characters of the Basic Multilingual Plane.
- GuideCrawler: the start URL can itself be discovered and queued again when a page links to it. The `visited` check then skips it, and the model states no more than that.
