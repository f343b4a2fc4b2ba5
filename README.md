# sloppy_archivist: the archival freshness core, in Dafny

This project models the part of sloppy_archivist that decides whether a
crawled URL needs a new Wayback Machine capture, and records that decision.
It has three modules:

- `ArchiveSite` (`archive_site.dfy`) models `archive_site.py`.
  - The SQLite file is a `Database` value: the set of tables that exist, the
    `archives` and `blocked_from_archiving` tables as maps keyed by URL, and
    `scrape_rules` as a sequence of rows.
  - `ArchiveSpider` is a class with the fields the spider updates: the
    connection flag, `db_initialized`, the `link_deny` pattern list and the
    database. Every `write_*_to_db` is a whole-row replace by key.
  - `Archiver` is a class with `latest_memento`, `last_archive_date` and
    `memento_not_found`. `find` is a loop that keeps the first memento with
    the latest timestamp. `needs_renewal` searches a second time and compares
    against the renewal start.
  - `ArchiveLinkRun` is one run of `archive_link` as a function of the store
    and the remote answers: the local check, the remote decision, then either
    adopting a memento or a capture and its three outcomes. The method
    `ArchiveSpider.ArchiveLink` is proved equal to it. The lemmas beside it
    state the properties of single and repeated runs.
- `EqWiki` (`eq_wiki.dfy`) models `site_specific/eq_wiki.py`. It covers
  the title derived with `str.strip("/wiki/")` (modelled after CPython's
  strip: a set of characters, not a prefix), the raw-wikitext URL, the saved
  file's name, the mapping of four DocOps exceptions to `None`, and the order
  of the items `parse_page` yields.
- `Common` (`common.dfy`) holds `Option`/`Result` and the scheme check that
  both spiders' constructors perform.

Each collaborator outside the core is an input to the model:

- The Wayback search is a finite sequence of `(timestamp, raw_url)` mementos.
  `archive_link` gets one sequence per search it sends.
- `savepagenow.capture` is `Captured(url)`, `BlockedByRobots` or
  `WaybackRuntimeError`.
- The raw page download is its `ok` flag.
- DocOps' `Archive` is a script saying how each of its three calls behaves.
- `urlparse` and regex matching are function-valued parameters.
- The clock is an integer `now` in seconds, and `timedelta(n)` is `n * 86400`.

Behaviour of the code that the model keeps:

- `db_contains_recent_link_archive` treats a missing row or a NULL date as
  "not recent", because the TypeError is caught.
- That local test is strict (`start < date`). A stale date leaves
  `needs_renew` unbound, so `archive_link` raises UnboundLocalError.
- The remote test is `start > date`, so a memento exactly at the renewal
  start is fresh. Adopting such a memento makes the next run at the same
  instant raise (`BoundaryAdoptionRaisesNextTime`).
- `needs_renewal` searches a second time. When that search comes back
  empty, the candidate from the first search is kept.
- Off-site links are written into `blocked_from_archiving`, keyed by the
  external URL, with the page they were found on as `Why`.

Code behaviour a reader might not expect:

- A stale local date raises instead of forcing a re-check.
- Off-site links land in the blocked table, and `found_external_links` is
  never written.
- A stale or unparsable local date escapes `parse_page` as an exception
  instead of being turned into a blocked row.

## Model

| member | source | states |
|---|---|---|
| `Common.SpiderSetup` | archive_site.py:74-81 | A base URL with an empty scheme is refused with the "full url" ValueError. Otherwise `start_urls == [base_url]` and `allowed_domains == [netloc]`. |
| `ArchiveSite.RenewalStart` | archive_site.py:213 | Definition: `now` minus the renewal period in seconds, as at line 213 and in `needs_renewal` at line 353. Its use in both freshness tests is proved in `LocalCheck`, `RemoteDecision` and `BoundaryAdoptionRaisesNextTime`. |
| `ArchiveSite.LocalCheck` | archive_site.py:206-221 | Recent iff the row has an ISO date strictly after `now - days`. Not recent iff the row is missing or its date is NULL. UnboundLocalError iff the date is at or before the start. ValueError for unparsable text. Never TypeError. |
| `ArchiveSite.ArchiveSpider.DbContainsRecentLinkArchive` | archive_site.py:206-221 | Written with `needs_renew` as a possibly unbound local; its result is `LocalCheck` of the current `archives` table. |
| `ArchiveSite.LatestIndex` | archive_site.py:327-337 | The index `find` keeps has a maximum timestamp over the whole sequence, and every earlier index has a strictly smaller one (the first maximum wins). |
| `ArchiveSite.Latest` | archive_site.py:327-337 | The kept memento is one of the results, and no result is later. Which one is kept among equal timestamps is stated by `LatestIndex`. |
| `ArchiveSite.LatestOfUnorderedResults` | archive_site.py:334-336 | For results dated 2020-01-01, 2022-06-01 and 2021-03-01 in that order, the 2022 memento is kept. |
| `ArchiveSite.Archiver.constructor` | archive_site.py:293-307 | A new Archiver has no memento, no date, `memento_not_found` unset, and has made no remote calls. |
| `ArchiveSite.Archiver.Archive` | archive_site.py:309-319 | One capture request, whose outcome is returned unchanged. |
| `ArchiveSite.Archiver.Find` | archive_site.py:321-337 | One search is made. An empty answer sets `memento_not_found` and keeps the old candidate. Otherwise the candidate becomes `Latest(results)`, found by a loop over the whole answer. |
| `ArchiveSite.Archiver.NeedsRenewal` | archive_site.py:339-358 | True without searching once `memento_not_found` is set. Otherwise it searches again, takes that answer's latest memento (or keeps the old one when the answer is empty), and returns `now - days > date`. A date that was never set is a TypeError. |
| `ArchiveSite.RemoteDecision` | archive_site.py:228-230 | An empty first search means submit. Otherwise the latest memento of the second answer (or the first, when the second is empty) is adopted iff some memento in it is at or after the renewal start. |
| `ArchiveSite.StableSearchAdopts` | archive_site.py:345-358 | When both searches agree, a memento is adopted iff one is at or after `now - days`, and the adopted memento is the latest (boundary inclusive). |
| `ArchiveSite.AfterCapture` | archive_site.py:230-248 | Definition: the write each capture outcome leads to. Its properties are proved in `CaptureOutcomes`. |
| `ArchiveSite.ArchiveLinkRun` | archive_site.py:223-257 | Definition: one run of `archive_link` over the store and the oracle answers. `ArchiveSpider.ArchiveLink` is proved equal to it, and its properties are proved in the lemmas from `RecentLinkSkipped` to `FirstCaptureRecorded`. |
| `ArchiveSite.RecentLinkSkipped` | archive_site.py:224-226 | A recent local row: nothing is written, no search or capture is made. |
| `ArchiveSite.StaleLinkRaises` | archive_site.py:215-221 | A row dated at or before the renewal start raises UnboundLocalError, and an unparsable one ValueError. In both cases nothing is written and no remote call is made. |
| `ArchiveSite.FreshMementoAdopted` | archive_site.py:249-256 | With no usable row, a memento adopted by `RemoteDecision` (for any two search answers) is written as the `archives` row ("Wayback Machine", its timestamp, its raw URL). Two searches are made, no capture. |
| `ArchiveSite.CaptureOutcomes` | archive_site.py:230-248 | When a capture is needed: success writes ("Wayback Machine", now, snapshot URL). BlockedByRobots writes blocked "robots.txt". WaybackRuntimeError writes blocked "Unknown Archiving Error". Neither failure touches `archives`. |
| `ArchiveSite.OnlyLinkRowsChange` | archive_site.py:223-257 | One run changes only the rows keyed by the link, never the tables or rules. It makes no search exactly when the local check raised or reported recent. |
| `ArchiveSite.CapturedLinkSkippedLater` | archive_site.py:213-237 | After a successful capture at `now`, a later run within the renewal period is skipped with no remote call. |
| `ArchiveSite.BoundaryAdoptionRaisesNextTime` | archive_site.py:213-219 | A memento exactly at `now - days` is adopted (remote test `>`, line 354). The next run at the same instant then raises UnboundLocalError (local test `<`). |
| `ArchiveSite.DefaultRenewalYear` | archive_site.py:208-221 | With the default `DAYS_BEFORE_RENEW_ARCHIVE` of 365 (line 60), a link first captured at `now` is skipped with no remote call by every run before the year is over, and a run exactly 365 days later raises UnboundLocalError. |
| `ArchiveSite.FirstCaptureRecorded` | archive_site.py:229-237 | No row, an empty search and a successful capture give exactly one new `archives` row (`Wayback Machine`, now, snapshot), one search and one capture. |
| `ArchiveSite.SelectRules` | archive_site.py:89 | A row is returned iff the table holds that rule for the network location, and there are no more rows than rules. |
| `ArchiveSite.LinkDenyPatterns` | archive_site.py:94-96 | A pattern is kept iff a `link_deny` row carries it, and there are no more patterns than rows. |
| `ArchiveSite.LoadedRules` | archive_site.py:83-96 | Definition: the patterns loaded for a network location. Its properties are proved in `LoadedRulesKeepOrder` and `LoadedRulesExactly`. |
| `ArchiveSite.LoadedRulesKeepOrder` | archive_site.py:87-92 | Loading is order-preserving: the rules of a concatenated table are the concatenated rules. |
| `ArchiveSite.LoadedRulesExactly` | archive_site.py:83-96 | Nothing is loaded when `len(netloc) <= 3`. Otherwise a pattern is loaded iff a `link_deny` rule with that pattern and network location exists. |
| `ArchiveSite.OffsiteWrites` | archive_site.py:131-134 | Definition: the blocked table after one write per off-site link. Its properties are proved in `OffsiteWritesRows`. |
| `ArchiveSite.OffsiteWritesRows` | archive_site.py:122-135 | After the off-site writes, every link is keyed in the blocked table with `Why` set to the page it was found on. The key set grows by exactly the links, and other rows are unchanged. |
| `ArchiveSite.ArchiveSpider.constructor` | archive_site.py:68-72 | A new spider has no connection, is not initialised, has no deny rules, and holds the existing database. |
| `ArchiveSite.ArchiveSpider.New` | archive_site.py:68-81 | `__init__` fails iff the base URL's scheme is empty. Otherwise it fixes `start_urls` and `allowed_domains`. |
| `ArchiveSite.ArchiveSpider.CreateTable` | archive_site.py:157-204 | Creating an absent table adds it, empty, and changes nothing else. |
| `ArchiveSite.ArchiveSpider.InitDatabase` | archive_site.py:98-116 | Once initialised it is a no-op. Otherwise it opens the connection, creates exactly the missing tables and keeps existing rows. Afterwards all four tables exist. |
| `ArchiveSite.ArchiveSpider.MakeArchiveRule` | archive_site.py:94-96 | Appends the pattern iff the rule type is `link_deny`. |
| `ArchiveSite.ArchiveSpider.PopulateCustomArchiveRules` | archive_site.py:83-92 | Appends `LoadedRules` for the base URL's network location, in query order. |
| `ArchiveSite.ArchiveSpider.LinkDenyAllows` | archive_site.py:146-150 | The page is archived iff no deny pattern matches its URL. An empty rule list always allows. |
| `ArchiveSite.ArchiveSpider.WriteArchiveToDb` | archive_site.py:259-265 | The `archives` row for the link becomes exactly the new tuple, and nothing else changes. |
| `ArchiveSite.ArchiveSpider.WriteBlockedToDb` | archive_site.py:267-272 | The blocked row for the link becomes exactly (reason, time), and nothing else changes. |
| `ArchiveSite.ArchiveSpider.WriteExternalLinkToDb` | archive_site.py:274-279 | The blocked row keyed by the external URL becomes (found_where, time), and nothing else changes. |
| `ArchiveSite.ArchiveSpider.SaveOffsiteLinks` | archive_site.py:122-135 | Nothing changes unless COLLECT_OFFSITE is true. Otherwise the blocked table is the result of one write per link, in order. |
| `ArchiveSite.ArchiveSpider.ArchiveLink` | archive_site.py:223-257 | The outcome, the new store and the numbers of searches and captures are those of `ArchiveLinkRun`. |
| `ArchiveSite.ArchiveSpider.ParsePage` | archive_site.py:137-154 | The first page initialises the database and loads the rules. If no deny pattern matches, the off-site links are saved and then the page is archived as `ArchiveLinkRun` says. Otherwise nothing is written. |
| `EqWiki.FixedStart` | site_specific/eq_wiki.py:57-65 | The fixed base URL passes the scheme check: `start_urls == ["https://learn.equalit.ie"]` and `allowed_domains == ["learn.equalit.ie"]`. |
| `EqWiki.SkipLeading` | site_specific/eq_wiki.py:70 | The leading stop is the first index whose character is outside the strip set. |
| `EqWiki.SkipTrailing` | site_specific/eq_wiki.py:70 | The trailing stop never passes the leading one, and only strip-set characters lie after it. |
| `EqWiki.StripSpan` | site_specific/eq_wiki.py:70 | The stripped slice: everything removed from either end is in the strip set, and a non-empty result neither starts nor ends with a strip-set character. |
| `EqWiki.Strip` | site_specific/eq_wiki.py:70 | Definition: the slice given by `StripSpan`. Its properties are proved in `StripSpan` and `StripIdempotent`. |
| `EqWiki.StripIdempotent` | site_specific/eq_wiki.py:70 | Stripping again removes nothing. |
| `EqWiki.RespPath` | site_specific/eq_wiki.py:70 | Definition: the path stripped of "/wiki/". Its properties are proved in `RespPathShape` and `StripIsNotPrefixRemoval`. |
| `EqWiki.RespPathShape` | site_specific/eq_wiki.py:70 | `resp_path` is a contiguous slice of the path, the removed ends are only '/', 'w', 'i', 'k', and it does not start or end with one of them. |
| `EqWiki.StripIsNotPrefixRemoval` | site_specific/eq_wiki.py:70 | "/wiki/Kiwi" gives "K" and "/wiki/kiwi" gives "". |
| `EqWiki.RawUrl` | site_specific/eq_wiki.py:71 | Definition: the raw-page URL for a title. Its properties are proved in `RawUrlTitle`. |
| `EqWiki.RawUrlTitle` | site_specific/eq_wiki.py:71 | The raw URL is the fixed prefix, the title and "&action=raw". The title can be read back from it, so the construction is injective. |
| `EqWiki.ReplaceSlashes` | site_specific/eq_wiki.py:83 | Same length, with each '/' replaced by '_' and every other character kept. |
| `EqWiki.FormattedTitle` | site_specific/eq_wiki.py:83-85 | No '/', and length `min(len(title), 100)`. Each character is the title's own, with '/' changed to '_'. The result is the replacement when that has at most 100 characters, and otherwise its first 100. |
| `EqWiki.DownloadRaw` | site_specific/eq_wiki.py:81-97 | Returns `r.ok`, and returns the path the file is saved under: the data directory followed by the formatted title. |
| `EqWiki.ArchiveLinkResult` | site_specific/eq_wiki.py:108-121 | The result of `request()` when all three calls succeed. None when the first failure is HTTPError, RobotAccessControlException, MissingArchiveError or UnknownArchiveException. Any other exception escapes. |
| `EqWiki.ArchiveLink` | site_specific/eq_wiki.py:108-121 | Returns `ArchiveLinkResult`. The calls made are a prefix of Archive(), submit(), request(), cut at the first raise. |
| `EqWiki.ResponseUrls` | site_specific/eq_wiki.py:68-74 | Definition: the page URL, then the raw URL when found. `EqWiki.ParsePage` is proved to yield one item per element, in this order. |
| `EqWiki.ParsePage` | site_specific/eq_wiki.py:67-78 | Yields the page URL first, then the raw URL only when the download was found. Each item pairs the URL with `archive_link`'s result. An escaping exception stops the items there. |

## Left out

- Scrapy crawling, `CrawlSpider` rules and `LinkExtractor` (including the deny patterns of eq_wiki.py's rule): external framework. Off-site links are given as the response's input sequence.
- SQLite connections, cursors, commits and `spider_closed`: they carry no logical content. Tables are maps, and writing to a table that does not exist is excluded by a precondition.
- The rows of `found_external_links` and its `UNIQUE(ExternalURL, FoundWhere)` constraint: the code creates that table but never writes to it.
- The Wayback client, `savepagenow.capture` (including the pass-through `custom_UA` branch), DocOps and `requests.get`: their results are inputs. Network errors other than the modelled outcomes are not represented.
- The `from_date` of the Wayback search (`datetime.today()` minus the renewal period): the search answer is an input, and is not assumed to respect it.
- Regular-expression semantics and `re.compile` errors: matching is a function-valued input.
- `urlparse`: a function-valued input. `EqWiki.BaseParsed` is the value it gives for the fixed base URL.
- Clocks: each call reads one `now`, where the code reads the clock several times. Sub-second precision is not modelled, and neither are TypeErrors from comparing naive and aware datetimes.
- `ArchiveSite.SelectRules`: the query has no ORDER BY; the model returns rows in table order.
- `environ['URL']` missing (a KeyError at start-up), logging, `ignore_index_pages` (logging only), and the file and CSV writes of `download_raw` and `write_captured`.
- `EqWiki.DownloadRaw`: the file `open` is not modelled, so a path that cannot be opened is not represented. For example a page path of "/" strips to "", and opening the data directory itself for writing raises before `parse_page` yields anything (eq_wiki.py:86-88).
- Timeouts, graceful shutdown, politeness delays and concurrency: configuration of the crawl framework, with no logic in this code.
- Deleting blocked rows after a successful capture: the code never does it.
