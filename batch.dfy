/** The batch drivers of the two champion scripts: the URL list read from `guides.txt`
    and the loop that scrapes each URL in turn, keeping the records that succeed. */
module ChampionBatch {
  import opened Wrappers
  import Text
  import Helpers
  import ChampionPage

  /** `line.trim()` is falsy exactly for a white-space-only line. */
  predicate Blank(line: string) {
    Text.Trim(line) == []
  }

  /** `.filter(line => line.trim())`: the lines that are not blank, unchanged and in
      order. */
  function NonBlank(lines: seq<string>): (r: seq<string>)
    ensures |r| <= |lines|
    ensures forall k :: 0 <= k < |r| ==> !Blank(r[k])
    decreases |lines|
  {
    if lines == [] then []
    else
      var r := NonBlank(lines[..|lines| - 1]);
      if Blank(lines[|lines| - 1]) then r else r + [lines[|lines| - 1]]
  }

  /** Filtering consecutive runs of lines gives the filtered runs one after the other. */
  lemma {:induction false} NonBlankAppend(a: seq<string>, b: seq<string>)
    ensures NonBlank(a + b) == NonBlank(a) + NonBlank(b)
    decreases |b|
  {
    if b == [] {
      assert a + b == a;
    } else {
      var n := |b| - 1;
      NonBlankAppend(a, b[..n]);
      assert (a + b)[..|a + b| - 1] == a + b[..n];
      assert (a + b)[|a + b| - 1] == b[n];
    }
  }

  /** A list with no blank line is kept whole. */
  lemma {:induction false} NonBlankKeepsAll(lines: seq<string>)
    requires forall k :: 0 <= k < |lines| ==> !Blank(lines[k])
    ensures NonBlank(lines) == lines
    decreases |lines|
  {
    if lines != [] {
      var n := |lines| - 1;
      NonBlankKeepsAll(lines[..n]);
      assert !Blank(lines[n]);
      assert lines[..n] + [lines[n]] == lines;
    }
  }

  /** A list of blank lines vanishes. */
  lemma {:induction false} NonBlankDropsAll(lines: seq<string>)
    requires forall k :: 0 <= k < |lines| ==> Blank(lines[k])
    ensures NonBlank(lines) == []
    decreases |lines|
  {
    if lines != [] {
      NonBlankDropsAll(lines[..|lines| - 1]);
    }
  }

  /** Every kept line is one of the file's lines. */
  lemma {:induction false} NonBlankFrom(lines: seq<string>)
    ensures forall k :: 0 <= k < |NonBlank(lines)| ==> NonBlank(lines)[k] in lines
    decreases |lines|
  {
    if lines != [] {
      var n := |lines| - 1;
      NonBlankFrom(lines[..n]);
      assert forall x :: x in lines[..n] ==> x in lines;
    }
  }

  /** `readFileSync('guides.txt', 'utf8').split('\n').filter(line => line.trim())`. */
  function UrlList(text: string): (urls: seq<string>)
    ensures forall k :: 0 <= k < |urls| ==> !Blank(urls[k]) && '\n' !in urls[k]
  {
    NonBlankFrom(Text.Split(text, '\n'));
    NonBlank(Text.Split(text, '\n'))
  }

  /** A file written as non-blank lines joined by newlines reads back as exactly those
      lines, untrimmed. */
  lemma UrlListOfLines(lines: seq<string>)
    requires lines != []
    requires forall k :: 0 <= k < |lines| ==> !Blank(lines[k]) && '\n' !in lines[k]
    ensures UrlList(Text.Join(lines, '\n')) == lines
  {
    Text.SplitJoin(lines, '\n');
    NonBlankKeepsAll(lines);
  }

  /** A trailing newline, and more generally a blank last line, adds no URL. */
  lemma UrlListBlankTail(text: string, tail: string)
    requires Blank(tail) && '\n' !in tail
    ensures UrlList(text + "\n" + tail) == UrlList(text)
  {
    Text.SplitAppend(text, '\n', tail);
    assert text + "\n" + tail == text + ['\n'] + tail;
    Text.SplitNoSeparator(tail, '\n');
    NonBlankAppend(Text.Split(text, '\n'), [tail]);
    NonBlankDropsAll([tail]);
  }

  // ---------------------------------------------------------------------------------
  // The batch loop

  /** One saved champion: its slug, the URL it was read from, and what the page gave. */
  datatype ChampionRecord = ChampionRecord(champion: string, source: string, data: ChampionPage.ChampionData)

  /** What scraping `url` gives: `None` when navigation or extraction throws. */
  type Scrape = string -> Option<ChampionPage.ChampionData>

  /** The record of a URL that scraped: its slug falls back to `champion`. */
  function RecordOf(url: string, pathname: string -> Option<string>, data: ChampionPage.ChampionData): (r: ChampionRecord)
    ensures r.source == url && r.data == data
    ensures pathname(url).None? ==> r.champion == Helpers.ChampionSlug
    ensures pathname(url).Some? ==> r.champion == Helpers.LastSegment(pathname(url).value).GetOr(Helpers.ChampionSlug)
  {
    ChampionRecord(Helpers.SlugFromUrl(pathname(url), Helpers.ChampionSlug), url, data)
  }

  /** The records after the first URLs: each URL that scrapes adds its record; one that
      throws is skipped and the loop goes on. */
  function Scraped(urls: seq<string>, pathname: string -> Option<string>, scrape: Scrape): (r: seq<ChampionRecord>)
    ensures |r| <= |urls|
    decreases |urls|
  {
    if urls == [] then []
    else
      var r := Scraped(urls[..|urls| - 1], pathname, scrape);
      var url := urls[|urls| - 1];
      match scrape(url)
      case None => r
      case Some(data) => r + [RecordOf(url, pathname, data)]
  }

  /** The main loop of both `Run.js` scripts. */
  method ScrapeAll(urls: seq<string>, pathname: string -> Option<string>, scrape: Scrape)
    returns (results: seq<ChampionRecord>)
    ensures results == Scraped(urls, pathname, scrape)
  {
    results := [];
    var total := |urls|;
    for i := 0 to total
      invariant results == Scraped(urls[..i], pathname, scrape)
    {
      assert urls[..i + 1][..i] == urls[..i];
      var url := urls[i];
      var result := scrape(url);
      if result.None? {
        continue;
      }
      results := results + [RecordOf(url, pathname, result.value)];
    }
    assert urls[..total] == urls;
  }

  /** Results keep URL order: the records of consecutive runs of URLs follow each other. */
  lemma {:induction false} ScrapedAppend(a: seq<string>, b: seq<string>, pathname: string -> Option<string>, scrape: Scrape)
    ensures Scraped(a + b, pathname, scrape) == Scraped(a, pathname, scrape) + Scraped(b, pathname, scrape)
    decreases |b|
  {
    if b == [] {
      assert a + b == a;
    } else {
      var n := |b| - 1;
      ScrapedAppend(a, b[..n], pathname, scrape);
      assert (a + b)[..|a + b| - 1] == a + b[..n];
      assert (a + b)[|a + b| - 1] == b[n];
    }
  }

  /** One URL adds its record exactly when it scrapes. */
  lemma ScrapedOne(url: string, pathname: string -> Option<string>, scrape: Scrape)
    ensures Scraped([url], pathname, scrape) ==
              if scrape(url).Some? then [RecordOf(url, pathname, scrape(url).value)] else []
  {
    assert [url][..0] == [];
  }

  /** Every record comes from a URL of the list that scraped, with that URL's data. */
  lemma {:induction false} ScrapedFrom(urls: seq<string>, pathname: string -> Option<string>, scrape: Scrape)
    ensures forall k :: 0 <= k < |Scraped(urls, pathname, scrape)| ==>
              var rec := Scraped(urls, pathname, scrape)[k];
              rec.source in urls && scrape(rec.source) == Some(rec.data)
    decreases |urls|
  {
    if urls != [] {
      var n := |urls| - 1;
      ScrapedFrom(urls[..n], pathname, scrape);
      assert forall x :: x in urls[..n] ==> x in urls;
    }
  }

  /** When every URL scrapes there is one record per URL, in order. */
  lemma {:induction false} ScrapedAll(urls: seq<string>, pathname: string -> Option<string>, scrape: Scrape)
    requires forall k :: 0 <= k < |urls| ==> scrape(urls[k]).Some?
    ensures |Scraped(urls, pathname, scrape)| == |urls|
    ensures forall k :: 0 <= k < |urls| ==> Scraped(urls, pathname, scrape)[k].source == urls[k]
    decreases |urls|
  {
    if urls != [] {
      var n := |urls| - 1;
      ScrapedAll(urls[..n], pathname, scrape);
      assert scrape(urls[n]).Some?;
    }
  }

  /** When no URL scrapes there is no record. */
  lemma {:induction false} ScrapedNone(urls: seq<string>, pathname: string -> Option<string>, scrape: Scrape)
    requires forall k :: 0 <= k < |urls| ==> scrape(urls[k]).None?
    ensures Scraped(urls, pathname, scrape) == []
    decreases |urls|
  {
    if urls != [] {
      ScrapedNone(urls[..|urls| - 1], pathname, scrape);
    }
  }
}
