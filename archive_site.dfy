/**
 * The archiving spider of archive_site.py: its SQLite store (modelled as
 * maps keyed by URL), the per-site deny rules, the per-link freshness
 * decision, and the Wayback lookup helper `Archiver`.
 *
 * Timestamps are integer seconds (UTC); `timedelta(n)` is n days.  The
 * Wayback search results and the outcome of a Save Page Now capture are
 * inputs (oracles); regular-expression matching and `urlparse` are
 * function-valued inputs.
 */
module ArchiveSite {
  import opened Common

  const SecondsPerDay: int := 86400

  /** The archive name written into every `archives` row. */
  const WaybackMachine: string := "Wayback Machine"
  const RobotsReason: string := "robots.txt"
  const UnknownErrorReason: string := "Unknown Archiving Error"
  const LinkDenyType: string := "link_deny"

  /** Settings of custom_settings that the core reads. */
  datatype Settings = Settings(daysBeforeRenewArchive: int, collectOffsite: bool)

  const DefaultSettings: Settings := Settings(365, true)

  /** The Python exceptions that escape `archive_link`. */
  datatype PyError = TypeError | UnboundLocalError | ValueError

  /** One Wayback search result. */
  datatype Memento = Memento(timestamp: int, rawUrl: string)

  /** What `savepagenow.capture` does: return a snapshot URL or raise. */
  datatype CaptureResult = Captured(archiveUrl: string) | BlockedByRobots | WaybackRuntimeError

  /** A LastSubmitDate cell: NULL, an ISO date, or text `fromisoformat` rejects. */
  datatype StoredDate = Null | Iso(seconds: int) | Unparsable

  datatype ArchiveRow = ArchiveRow(archive: string, lastSubmitDate: StoredDate, archiveUrl: string)

  datatype BlockedRow = BlockedRow(why: string, lastCheckDate: int)

  datatype ScrapeRule = ScrapeRule(ruleType: string, rule: string, netloc: string)

  /** A row of `SELECT rule_type, rule FROM scrape_rules WHERE netloc = ?`. */
  datatype RuleRow = RuleRow(ruleType: string, rule: string)

  datatype Table = Archives | FoundExternalLinks | BlockedFromArchiving | ScrapeRules

  const AllTables: set<Table> := {Archives, FoundExternalLinks, BlockedFromArchiving, ScrapeRules}

  /**
   * The database file: which tables exist and the rows of those the core
   * reads or writes (`found_external_links` is created but never written).
   */
  datatype Database = Database(
    tables: set<Table>,
    archives: map<string, ArchiveRow>,
    blocked: map<string, BlockedRow>,
    scrapeRules: seq<ScrapeRule>)
  {
    /** A table that does not exist holds no rows. */
    predicate WellFormed() {
      && (Archives !in tables ==> archives == map[])
      && (BlockedFromArchiving !in tables ==> blocked == map[])
      && (ScrapeRules !in tables ==> scrapeRules == [])
    }
  }

  // ---------------------------------------------------------------------
  // Freshness
  // ---------------------------------------------------------------------

  /** `now - timedelta(days)`: the start of the renewal period. */
  function RenewalStart(now: int, days: int): int {
    now - days * SecondsPerDay
  }

  /**
   * The outcome of `db_contains_recent_link_archive`: a missing row or a
   * NULL date is a caught TypeError ("not recent"); an ISO date strictly
   * after the renewal start is recent; an older date leaves `needs_renew`
   * unbound; an unparsable date makes `fromisoformat` raise ValueError.
   */
  function LocalCheck(archives: map<string, ArchiveRow>, link: string, now: int, days: int): (r: Result<bool, PyError>)
    ensures r == Success(true) <==>
              link in archives && archives[link].lastSubmitDate.Iso? &&
              RenewalStart(now, days) < archives[link].lastSubmitDate.seconds
    ensures r == Success(false) <==> link !in archives || archives[link].lastSubmitDate.Null?
    ensures r == Failure(UnboundLocalError) <==>
              link in archives && archives[link].lastSubmitDate.Iso? &&
              archives[link].lastSubmitDate.seconds <= RenewalStart(now, days)
    ensures r == Failure(ValueError) <==> link in archives && archives[link].lastSubmitDate.Unparsable?
    ensures r != Failure(TypeError)
  {
    if link !in archives then Success(false)
    else match archives[link].lastSubmitDate
      case Null => Success(false)
      case Unparsable => Failure(ValueError)
      case Iso(t) => if RenewalStart(now, days) < t then Success(true) else Failure(UnboundLocalError)
  }

  /** `k` is the index `find` keeps: a maximum timestamp, and the first such. */
  ghost predicate IsFirstMax(s: seq<Memento>, k: int) {
    && 0 <= k < |s|
    && (forall j :: 0 <= j < |s| ==> s[j].timestamp <= s[k].timestamp)
    && (forall j :: 0 <= j < k ==> s[j].timestamp < s[k].timestamp)
  }

  /**
   * The index of the memento `find` keeps after scanning `s` from the left,
   * replacing its candidate only on a strictly later timestamp.
   */
  function LatestIndex(s: seq<Memento>): (k: nat)
    requires s != []
    ensures IsFirstMax(s, k)
    decreases |s|
  {
    if |s| == 1 then 0
    else
      var k := LatestIndex(s[..|s| - 1]);
      if s[k].timestamp < s[|s| - 1].timestamp then |s| - 1 else k
  }

  /** The memento `find` keeps: one of the results, and none is later. */
  function Latest(s: seq<Memento>): (m: Memento)
    requires s != []
    ensures m in s
    ensures forall j :: 0 <= j < |s| ==> s[j].timestamp <= m.timestamp
  {
    s[LatestIndex(s)]
  }

  /** Results returned out of order: the latest is kept, not the first. */
  lemma LatestOfUnorderedResults()
    ensures var s := [Memento(1577836800, "a"), Memento(1654041600, "b"), Memento(1614556800, "c")];
            Latest(s) == Memento(1654041600, "b")
  {
  }

  /**
   * What `find()` followed by `needs_renewal()` decide from the answers of
   * the two Wayback searches: None means "submit a capture", Some(m) means
   * "adopt memento m".  An empty first answer always submits; otherwise the
   * latest memento of the second answer (of the first, when the second is
   * empty) is adopted unless it is strictly older than the renewal start.
   */
  function RemoteDecision(first: seq<Memento>, second: seq<Memento>, now: int, days: int): (d: Option<Memento>)
    ensures first == [] ==> d == None
    ensures d.Some? ==> RenewalStart(now, days) <= d.value.timestamp
    ensures first != [] && second != [] ==>
              (d.Some? <==> exists i :: 0 <= i < |second| && RenewalStart(now, days) <= second[i].timestamp)
    ensures first != [] && second == [] ==>
              (d.Some? <==> exists i :: 0 <= i < |first| && RenewalStart(now, days) <= first[i].timestamp)
    ensures d.Some? && second != [] ==> d.value == Latest(second)
    ensures d.Some? && second == [] ==> d.value == Latest(first)
  {
    if first == [] then None
    else
      var latest := if second == [] then Latest(first) else Latest(second);
      if RenewalStart(now, days) > latest.timestamp then None else Some(latest)
  }

  /** When both searches give the same answer, a memento at or after the renewal start is adopted. */
  lemma StableSearchAdopts(s: seq<Memento>, now: int, days: int)
    requires s != []
    ensures RemoteDecision(s, s, now, days).Some? <==>
              exists i :: 0 <= i < |s| && RenewalStart(now, days) <= s[i].timestamp
    ensures RemoteDecision(s, s, now, days).Some? ==> RemoteDecision(s, s, now, days).value == Latest(s)
  {
  }

  // ---------------------------------------------------------------------
  // archive_link as a function of the store and the oracles
  // ---------------------------------------------------------------------

  datatype LinkOutcome = Completed | Raised(error: PyError)

  /**
   * One run of `archive_link`: its outcome, the store afterwards, the number
   * of Wayback searches sent and whether a capture was requested.
   */
  datatype LinkRun = LinkRun(outcome: LinkOutcome, db: Database, searches: nat, captured: bool)

  /** The store after a capture request and the write its outcome leads to. */
  function AfterCapture(db: Database, link: string, now: int, capture: CaptureResult): Database {
    match capture
    case Captured(u) => db.(archives := db.archives[link := ArchiveRow(WaybackMachine, Iso(now), u)])
    case BlockedByRobots => db.(blocked := db.blocked[link := BlockedRow(RobotsReason, now)])
    case WaybackRuntimeError => db.(blocked := db.blocked[link := BlockedRow(UnknownErrorReason, now)])
  }

  function ArchiveLinkRun(db: Database, link: string, now: int, days: int,
                          first: seq<Memento>, second: seq<Memento>, capture: CaptureResult): LinkRun
  {
    match LocalCheck(db.archives, link, now, days)
    case Failure(e) => LinkRun(Raised(e), db, 0, false)
    case Success(recent) =>
      if recent then LinkRun(Completed, db, 0, false)
      else
        var searches := if first == [] then 1 else 2;
        match RemoteDecision(first, second, now, days)
        case Some(m) =>
          LinkRun(Completed, db.(archives := db.archives[link := ArchiveRow(WaybackMachine, Iso(m.timestamp), m.rawUrl)]),
                  searches, false)
        case None => LinkRun(Completed, AfterCapture(db, link, now, capture), searches, true)
  }

  /** A recent local row: nothing is written and no remote call is made. */
  lemma RecentLinkSkipped(db: Database, link: string, now: int, days: int,
                          first: seq<Memento>, second: seq<Memento>, capture: CaptureResult)
    requires link in db.archives && db.archives[link].lastSubmitDate.Iso?
    requires RenewalStart(now, days) < db.archives[link].lastSubmitDate.seconds
    ensures ArchiveLinkRun(db, link, now, days, first, second, capture) == LinkRun(Completed, db, 0, false)
  {
  }

  /**
   * A stale local row makes `archive_link` raise UnboundLocalError before
   * any search or write; an unparsable one raises ValueError.
   */
  lemma StaleLinkRaises(db: Database, link: string, now: int, days: int,
                        first: seq<Memento>, second: seq<Memento>, capture: CaptureResult)
    requires link in db.archives && !db.archives[link].lastSubmitDate.Null?
    requires db.archives[link].lastSubmitDate.Iso? ==> db.archives[link].lastSubmitDate.seconds <= RenewalStart(now, days)
    ensures var run := ArchiveLinkRun(db, link, now, days, first, second, capture);
            run.db == db && run.searches == 0 && !run.captured &&
            run.outcome == Raised(if db.archives[link].lastSubmitDate.Iso? then UnboundLocalError else ValueError)
  {
  }

  /**
   * Without a usable local row, a memento the two searches decide to adopt
   * is written with its own timestamp and raw URL, and no capture is
   * requested.
   */
  lemma FreshMementoAdopted(db: Database, link: string, now: int, days: int,
                            first: seq<Memento>, second: seq<Memento>, capture: CaptureResult, m: Memento)
    requires link !in db.archives || db.archives[link].lastSubmitDate.Null?
    requires RemoteDecision(first, second, now, days) == Some(m)
    ensures var run := ArchiveLinkRun(db, link, now, days, first, second, capture);
            && run.outcome == Completed && !run.captured && run.searches == 2
            && run.db == db.(archives := db.archives[link := ArchiveRow(WaybackMachine, Iso(m.timestamp), m.rawUrl)])
  {
  }

  /**
   * The three capture outcomes: success records the snapshot with time
   * `now`; robots and runtime failures record a blocked row and leave the
   * `archives` table alone.
   */
  lemma CaptureOutcomes(db: Database, link: string, now: int, days: int,
                        first: seq<Memento>, second: seq<Memento>, capture: CaptureResult)
    requires link !in db.archives || db.archives[link].lastSubmitDate.Null?
    requires RemoteDecision(first, second, now, days) == None
    ensures var run := ArchiveLinkRun(db, link, now, days, first, second, capture);
            && run.outcome == Completed && run.captured
            && run.searches == (if first == [] then 1 else 2)
            && (capture.Captured? ==>
                  run.db == db.(archives := db.archives[link := ArchiveRow(WaybackMachine, Iso(now), capture.archiveUrl)]))
            && (capture.BlockedByRobots? ==>
                  run.db == db.(blocked := db.blocked[link := BlockedRow(RobotsReason, now)]))
            && (capture.WaybackRuntimeError? ==>
                  run.db == db.(blocked := db.blocked[link := BlockedRow(UnknownErrorReason, now)]))
            && (!capture.Captured? ==> run.db.archives == db.archives)
  {
  }

  /** Only rows keyed by the link itself change; tables and rules never do. */
  lemma OnlyLinkRowsChange(db: Database, link: string, now: int, days: int,
                           first: seq<Memento>, second: seq<Memento>, capture: CaptureResult)
    ensures var run := ArchiveLinkRun(db, link, now, days, first, second, capture);
            && run.db.tables == db.tables && run.db.scrapeRules == db.scrapeRules
            && run.db.archives - {link} == db.archives - {link}
            && run.db.blocked - {link} == db.blocked - {link}
            && (run.searches == 0 <==> !LocalCheck(db.archives, link, now, days).Success? || LocalCheck(db.archives, link, now, days).value)
  {
  }

  /**
   * After a successful capture at `now`, archiving the same link again
   * before the renewal period has elapsed is skipped without any search.
   */
  lemma {:induction false} CapturedLinkSkippedLater(db: Database, link: string, now: int, later: int, days: int,
                                                    first: seq<Memento>, second: seq<Memento>, capture: CaptureResult,
                                                    first': seq<Memento>, second': seq<Memento>, capture': CaptureResult)
    requires ArchiveLinkRun(db, link, now, days, first, second, capture).captured
    requires capture.Captured?
    requires now <= later < now + days * SecondsPerDay
    ensures var run := ArchiveLinkRun(db, link, now, days, first, second, capture);
            ArchiveLinkRun(run.db, link, later, days, first', second', capture') == LinkRun(Completed, run.db, 0, false)
  {
    var run := ArchiveLinkRun(db, link, now, days, first, second, capture);
    assert run.db.archives[link] == ArchiveRow(WaybackMachine, Iso(now), capture.archiveUrl);
    assert RenewalStart(later, days) < now;
  }

  /**
   * A memento adopted exactly at the renewal start is fresh for the remote
   * test (`>`) but stale for the local test (`<`): archiving the link again
   * at the same instant raises UnboundLocalError.
   */
  lemma {:induction false} BoundaryAdoptionRaisesNextTime(db: Database, link: string, now: int, days: int,
                                                          m: Memento, capture: CaptureResult,
                                                          first': seq<Memento>, second': seq<Memento>, capture': CaptureResult)
    requires link !in db.archives
    requires m.timestamp == RenewalStart(now, days)
    ensures var run := ArchiveLinkRun(db, link, now, days, [m], [m], capture);
            && !run.captured
            && run.db.archives[link] == ArchiveRow(WaybackMachine, Iso(m.timestamp), m.rawUrl)
            && ArchiveLinkRun(run.db, link, now, days, first', second', capture').outcome == Raised(UnboundLocalError)
  {
    assert LatestIndex([m]) == 0;
    var run := ArchiveLinkRun(db, link, now, days, [m], [m], capture);
    assert RemoteDecision([m], [m], now, days) == Some(m);
    assert LocalCheck(run.db.archives, link, now, days) == Failure(UnboundLocalError);
  }

  /**
   * With the default renewal period of 365 days, a link first captured at
   * `now` is skipped by every run up to one second before the year is over,
   * and a run exactly one year later raises UnboundLocalError.
   */
  lemma {:induction false} DefaultRenewalYear(db: Database, link: string, now: int, snapshot: string,
                                              first: seq<Memento>, second: seq<Memento>, capture: CaptureResult)
    requires link !in db.archives
    ensures var days := DefaultSettings.daysBeforeRenewArchive;
            var run := ArchiveLinkRun(db, link, now, days, [], [], Captured(snapshot));
            && (forall later :: now <= later < now + 365 * SecondsPerDay ==>
                  ArchiveLinkRun(run.db, link, later, days, first, second, capture) == LinkRun(Completed, run.db, 0, false))
            && ArchiveLinkRun(run.db, link, now + 365 * SecondsPerDay, days, first, second, capture).outcome == Raised(UnboundLocalError)
  {
    var days := DefaultSettings.daysBeforeRenewArchive;
    FirstCaptureRecorded(db, link, now, days, snapshot);
    forall later | now <= later < now + 365 * SecondsPerDay
      ensures ArchiveLinkRun(ArchiveLinkRun(db, link, now, days, [], [], Captured(snapshot)).db, link, later, days, first, second, capture)
              == LinkRun(Completed, ArchiveLinkRun(db, link, now, days, [], [], Captured(snapshot)).db, 0, false)
    {
      CapturedLinkSkippedLater(db, link, now, later, days, [], [], Captured(snapshot), first, second, capture);
    }
  }

  /** The end-to-end scenario: no record, empty search, a successful capture. */
  lemma FirstCaptureRecorded(db: Database, link: string, now: int, days: int, snapshot: string)
    requires link !in db.archives
    ensures ArchiveLinkRun(db, link, now, days, [], [], Captured(snapshot)) ==
            LinkRun(Completed, db.(archives := db.archives[link := ArchiveRow(WaybackMachine, Iso(now), snapshot)]), 1, true)
  {
  }

  // ---------------------------------------------------------------------
  // Deny rules
  // ---------------------------------------------------------------------

  /** `SELECT rule_type, rule FROM scrape_rules WHERE netloc = ?`, in table order. */
  function SelectRules(rules: seq<ScrapeRule>, netloc: string): (rows: seq<RuleRow>)
    ensures |rows| <= |rules|
    ensures forall r :: r in rows <==> ScrapeRule(r.ruleType, r.rule, netloc) in rules
    decreases |rules|
  {
    if rules == [] then []
    else
      var init, last := rules[..|rules| - 1], rules[|rules| - 1];
      assert rules == init + [last];
      SelectRules(init, netloc) + (if last.netloc == netloc then [RuleRow(last.ruleType, last.rule)] else [])
  }

  /** The patterns `make_archive_rule` keeps from a sequence of rows: those of type link_deny. */
  function LinkDenyPatterns(rows: seq<RuleRow>): (ps: seq<string>)
    ensures |ps| <= |rows|
    ensures forall p :: p in ps <==> RuleRow(LinkDenyType, p) in rows
    decreases |rows|
  {
    if rows == [] then []
    else
      var init, last := rows[..|rows| - 1], rows[|rows| - 1];
      assert rows == init + [last];
      LinkDenyPatterns(init) + (if last.ruleType == LinkDenyType then [last.rule] else [])
  }

  /** The patterns `populate_custom_archive_rules` appends for a site. */
  function LoadedRules(rules: seq<ScrapeRule>, netloc: string): seq<string> {
    if |netloc| > 3 then LinkDenyPatterns(SelectRules(rules, netloc)) else []
  }

  lemma {:induction false} SelectRulesAppend(a: seq<ScrapeRule>, b: seq<ScrapeRule>, netloc: string)
    ensures SelectRules(a + b, netloc) == SelectRules(a, netloc) + SelectRules(b, netloc)
    decreases |b|
  {
    if b == [] {
      assert a + b == a;
    } else {
      assert (a + b)[..|a + b| - 1] == a + b[..|b| - 1];
      SelectRulesAppend(a, b[..|b| - 1], netloc);
    }
  }

  lemma {:induction false} LinkDenyPatternsAppend(a: seq<RuleRow>, b: seq<RuleRow>)
    ensures LinkDenyPatterns(a + b) == LinkDenyPatterns(a) + LinkDenyPatterns(b)
    decreases |b|
  {
    if b == [] {
      assert a + b == a;
    } else {
      assert (a + b)[..|a + b| - 1] == a + b[..|b| - 1];
      LinkDenyPatternsAppend(a, b[..|b| - 1]);
    }
  }

  /** Loading keeps the table order: the rules of a concatenation are the concatenation of the rules. */
  lemma LoadedRulesKeepOrder(a: seq<ScrapeRule>, b: seq<ScrapeRule>, netloc: string)
    ensures LoadedRules(a + b, netloc) == LoadedRules(a, netloc) + LoadedRules(b, netloc)
  {
    SelectRulesAppend(a, b, netloc);
    LinkDenyPatternsAppend(SelectRules(a, netloc), SelectRules(b, netloc));
  }

  /**
   * A pattern is loaded exactly when the table holds a link_deny rule with
   * that pattern for the site, and nothing is loaded for a network location
   * of three characters or fewer.
   */
  lemma LoadedRulesExactly(rules: seq<ScrapeRule>, netloc: string, p: string)
    ensures |netloc| <= 3 ==> LoadedRules(rules, netloc) == []
    ensures |netloc| > 3 ==> (p in LoadedRules(rules, netloc) <==> ScrapeRule(LinkDenyType, p, netloc) in rules)
  {
  }

  /** No deny pattern matches the URL (so the page is archived). */
  predicate NoDenyRuleMatches(rules: seq<string>, url: string, matches: (string, string) -> bool) {
    forall i :: 0 <= i < |rules| ==> !matches(rules[i], url)
  }

  // ---------------------------------------------------------------------
  // Off-site links
  // ---------------------------------------------------------------------

  /** `blocked_from_archiving` after `write_external_link_to_db` for each link in turn. */
  function OffsiteWrites(blocked: map<string, BlockedRow>, links: seq<string>, foundWhere: string, now: int): map<string, BlockedRow>
    decreases |links|
  {
    if links == [] then blocked
    else OffsiteWrites(blocked, links[..|links| - 1], foundWhere, now)[links[|links| - 1] := BlockedRow(foundWhere, now)]
  }

  /**
   * Every off-site link ends up keyed in the blocked table with the page it
   * was found on as its reason; every other row is untouched.
   */
  lemma {:induction false} OffsiteWritesRows(blocked: map<string, BlockedRow>, links: seq<string>, foundWhere: string, now: int)
    ensures var b := OffsiteWrites(blocked, links, foundWhere, now);
            && b.Keys == blocked.Keys + (set l | l in links)
            && (forall l :: l in links ==> b[l] == BlockedRow(foundWhere, now))
            && (forall k :: k in blocked && k !in links ==> b[k] == blocked[k])
    decreases |links|
  {
    if links != [] {
      var init := links[..|links| - 1];
      OffsiteWritesRows(blocked, init, foundWhere, now);
      assert links == init + [links[|links| - 1]];
      assert (set l | l in links) == (set l | l in init) + {links[|links| - 1]};
    }
  }

  // ---------------------------------------------------------------------
  // Archiver
  // ---------------------------------------------------------------------

  /** The Wayback lookup helper for one target URL. */
  class Archiver {
    const sourceTarget: string
    const daysBeforeRenewal: int
    var latestMemento: Option<Memento>
    var lastArchiveDate: Option<int>
    /** `memento_not_found`: None (false here) until a search comes back empty, then True. */
    var mementoNotFound: bool
    /** Searches sent to the Wayback search API so far. */
    ghost var searches: nat
    /** Capture requests sent to Save Page Now so far. */
    ghost var captures: nat

    constructor(target: string, days: int)
      ensures sourceTarget == target && daysBeforeRenewal == days
      ensures latestMemento == None && lastArchiveDate == None && !mementoNotFound
      ensures searches == 0 && captures == 0
    {
      sourceTarget, daysBeforeRenewal := target, days;
      latestMemento, lastArchiveDate, mementoNotFound := None, None, false;
      searches, captures := 0, 0;
    }

    /** `archive`: one call of `sp_capture`, whose outcome is `result`. */
    method Archive(result: CaptureResult) returns (r: CaptureResult)
      modifies this`captures
      ensures r == result && captures == old(captures) + 1
    {
      captures := captures + 1;
      r := result;
    }

    /**
     * `find`: one search whose answer is `results`; an empty answer sets
     * `memento_not_found` and keeps the old candidate, otherwise the whole
     * answer is scanned for the first memento with the latest timestamp.
     */
    method Find(results: seq<Memento>)
      modifies this`latestMemento, this`mementoNotFound, this`searches
      ensures searches == old(searches) + 1
      ensures results == [] ==> mementoNotFound && latestMemento == old(latestMemento)
      ensures results != [] ==> latestMemento == Some(Latest(results)) && mementoNotFound == old(mementoNotFound)
    {
      searches := searches + 1;
      if |results| == 0 {
        mementoNotFound := true;
        return;
      }
      var latest := results[0];
      ghost var k := 0;
      for i := 1 to |results|
        invariant k == LatestIndex(results[..i]) && latest == results[k]
      {
        assert results[..i + 1][..i] == results[..i];
        if latest.timestamp < results[i].timestamp {
          latest, k := results[i], i;
        }
      }
      assert results[..|results|] == results;
      latestMemento := Some(latest);
    }

    /**
     * `needs_renewal`: true at once after an empty search; otherwise a second
     * search (`again`), then true iff the renewal start is strictly after the
     * latest memento's timestamp.  Comparing with a date that was never set
     * is a TypeError.
     */
    method NeedsRenewal(again: seq<Memento>, now: int) returns (r: Result<bool, PyError>)
      modifies this`latestMemento, this`mementoNotFound, this`searches, this`lastArchiveDate
      ensures old(mementoNotFound) ==>
                && r == Success(true) && mementoNotFound && searches == old(searches)
                && latestMemento == old(latestMemento) && lastArchiveDate == old(lastArchiveDate)
      ensures !old(mementoNotFound) ==>
                && searches == old(searches) + 1
                && mementoNotFound == (again == [])
                && latestMemento == (if again == [] then old(latestMemento) else Some(Latest(again)))
                && lastArchiveDate == (if latestMemento.Some? then Some(latestMemento.value.timestamp) else old(lastArchiveDate))
                && r == (if lastArchiveDate.None? then Failure(TypeError)
                         else Success(RenewalStart(now, daysBeforeRenewal) > lastArchiveDate.value))
    {
      if mementoNotFound {
        return Success(true);
      }
      Find(again);
      if latestMemento.Some? {
        lastArchiveDate := Some(latestMemento.value.timestamp);
      }
      if lastArchiveDate.None? {
        return Failure(TypeError);
      }
      r := Success(RenewalStart(now, daysBeforeRenewal) > lastArchiveDate.value);
    }
  }

  // ---------------------------------------------------------------------
  // ArchiveSpider
  // ---------------------------------------------------------------------

  /** A page handed to `parse_page`: its URL and the off-site links extracted from it. */
  datatype Response = Response(url: string, offsiteLinks: seq<string>)

  class ArchiveSpider {
    const startUrls: seq<string>
    const allowedDomains: seq<string>
    const settings: Settings
    /** `self.conn is not None` */
    var connOpen: bool
    /** `self.db_initialized is True` */
    var dbInitialized: bool
    /** `self.archive_filter['link_deny']`, the compiled patterns as their text */
    var linkDeny: seq<string>
    var db: Database

    ghost predicate Valid()
      reads this
    {
      && db.WellFormed()
      && (connOpen <==> dbInitialized)
      && (dbInitialized ==> db.tables == AllTables)
      && |startUrls| > 0
    }

    constructor(setup: Setup, settings: Settings, existing: Database)
      requires existing.WellFormed() && |setup.startUrls| > 0
      ensures Valid()
      ensures startUrls == setup.startUrls && allowedDomains == setup.allowedDomains && this.settings == settings
      ensures !connOpen && !dbInitialized && linkDeny == [] && db == existing
    {
      startUrls, allowedDomains, this.settings := setup.startUrls, setup.allowedDomains, settings;
      connOpen, dbInitialized, linkDeny, db := false, false, [], existing;
    }

    /** `__init__`: refuses a base URL without a scheme, else starts the crawl there. */
    static method New(baseUrl: string, urlparse: string -> ParsedUrl, settings: Settings, existing: Database)
      returns (r: Result<ArchiveSpider, ConfigError>)
      requires existing.WellFormed()
      ensures r.Failure? <==> urlparse(baseUrl).scheme == ""
      ensures r.Success? ==>
                && fresh(r.value) && r.value.Valid()
                && r.value.startUrls == [baseUrl] && r.value.allowedDomains == [urlparse(baseUrl).netloc]
                && r.value.settings == settings && r.value.db == existing
                && !r.value.connOpen && r.value.linkDeny == []
    {
      var setup := SpiderSetup(baseUrl, urlparse(baseUrl));
      if setup.Failure? {
        return Failure(setup.error);
      }
      var spider := new ArchiveSpider(setup.value, settings, existing);
      r := Success(spider);
    }

    /** `_create_database(name)`: creates one empty table. */
    method CreateTable(t: Table)
      requires db.WellFormed() && t !in db.tables
      modifies this`db
      ensures db == old(db).(tables := old(db.tables) + {t})
      ensures db.WellFormed()
    {
      db := db.(tables := db.tables + {t});
    }

    /**
     * `init_database`: a no-op once initialised; otherwise opens the
     * connection and creates each of the four tables that is absent.
     */
    method InitDatabase()
      requires Valid()
      modifies this`db, this`connOpen, this`dbInitialized
      ensures Valid() && dbInitialized && connOpen
      ensures old(dbInitialized) ==> db == old(db)
      ensures db == old(db).(tables := AllTables)
    {
      if dbInitialized {
        return;
      }
      connOpen := true;
      if Archives !in db.tables {
        CreateTable(Archives);
      }
      if FoundExternalLinks !in db.tables {
        CreateTable(FoundExternalLinks);
      }
      if BlockedFromArchiving !in db.tables {
        CreateTable(BlockedFromArchiving);
      }
      if ScrapeRules !in db.tables {
        CreateTable(ScrapeRules);
      }
      forall t | t in db.tables
        ensures t in AllTables
      {
        match t
        case Archives =>
        case FoundExternalLinks =>
        case BlockedFromArchiving =>
        case ScrapeRules =>
      }
      dbInitialized := true;
    }

    /** `make_archive_rule`: keeps the pattern only when the rule is of type link_deny. */
    method MakeArchiveRule(ruleType: string, rule: string)
      modifies this`linkDeny
      ensures linkDeny == old(linkDeny) + (if ruleType == LinkDenyType then [rule] else [])
    {
      if ruleType == LinkDenyType {
        linkDeny := linkDeny + [rule];
      }
    }

    /** `populate_custom_archive_rules`: appends the site's link_deny patterns in query order. */
    method PopulateCustomArchiveRules(baseUrl: string, urlparse: string -> ParsedUrl)
      requires ScrapeRules in db.tables
      modifies this`linkDeny
      ensures linkDeny == old(linkDeny) + LoadedRules(db.scrapeRules, urlparse(baseUrl).netloc)
    {
      var netloc := urlparse(baseUrl).netloc;
      if |netloc| > 3 {
        var res := SelectRules(db.scrapeRules, netloc);
        for i := 0 to |res|
          invariant linkDeny == old(linkDeny) + LinkDenyPatterns(res[..i])
        {
          assert res[..i + 1][..i] == res[..i];
          MakeArchiveRule(res[i].ruleType, res[i].rule);
        }
        assert res[..|res|] == res;
      }
    }

    /** The filter loop of `parse_page`: every pattern is tried; any match refuses the page. */
    method LinkDenyAllows(url: string, matches: (string, string) -> bool) returns (archivePage: bool)
      ensures archivePage == NoDenyRuleMatches(linkDeny, url, matches)
      ensures linkDeny == [] ==> archivePage
    {
      archivePage := true;
      for i := 0 to |linkDeny|
        invariant archivePage == NoDenyRuleMatches(linkDeny[..i], url, matches)
      {
        if matches(linkDeny[i], url) {
          archivePage := false;
        }
      }
      assert linkDeny[..|linkDeny|] == linkDeny;
    }

    /** `write_archive_to_db`: whole-row upsert into `archives`. */
    method WriteArchiveToDb(link: string, archiveName: string, lastSubmit: int, archiveUrl: string)
      requires Archives in db.tables
      modifies this`db
      ensures db == old(db).(archives := old(db.archives)[link := ArchiveRow(archiveName, Iso(lastSubmit), archiveUrl)])
    {
      db := db.(archives := db.archives[link := ArchiveRow(archiveName, Iso(lastSubmit), archiveUrl)]);
    }

    /** `write_blocked_to_db`: whole-row upsert into `blocked_from_archiving`. */
    method WriteBlockedToDb(link: string, reason: string, timeBlocked: int)
      requires BlockedFromArchiving in db.tables
      modifies this`db
      ensures db == old(db).(blocked := old(db.blocked)[link := BlockedRow(reason, timeBlocked)])
    {
      db := db.(blocked := db.blocked[link := BlockedRow(reason, timeBlocked)]);
    }

    /**
     * `write_external_link_to_db`: also an upsert into `blocked_from_archiving`,
     * keyed by the external URL, with the page it was found on as `Why`.
     */
    method WriteExternalLinkToDb(externalUrl: string, foundWhere: string, timeFound: int)
      requires BlockedFromArchiving in db.tables
      modifies this`db
      ensures db == old(db).(blocked := old(db.blocked)[externalUrl := BlockedRow(foundWhere, timeFound)])
    {
      db := db.(blocked := db.blocked[externalUrl := BlockedRow(foundWhere, timeFound)]);
    }

    /** `save_offsite_links`: nothing unless COLLECT_OFFSITE is true, else one write per link. */
    method SaveOffsiteLinks(response: Response, now: int)
      requires BlockedFromArchiving in db.tables
      modifies this`db
      ensures db == if settings.collectOffsite
                    then old(db).(blocked := OffsiteWrites(old(db.blocked), response.offsiteLinks, response.url, now))
                    else old(db)
    {
      if !settings.collectOffsite {
        return;
      }
      var links := response.offsiteLinks;
      for i := 0 to |links|
        invariant db == old(db).(blocked := OffsiteWrites(old(db.blocked), links[..i], response.url, now))
      {
        assert links[..i + 1][..i] == links[..i];
        WriteExternalLinkToDb(links[i], response.url, now);
      }
      assert links[..|links|] == links;
    }

    /** `db_contains_recent_link_archive`, with `needs_renew` possibly left unbound. */
    method DbContainsRecentLinkArchive(link: string, now: int) returns (r: Result<bool, PyError>)
      requires Archives in db.tables
      ensures r == LocalCheck(db.archives, link, now, settings.daysBeforeRenewArchive)
    {
      var needsRenew: Option<bool> := None;
      if link !in db.archives {
        needsRenew := Some(true);
      } else {
        match db.archives[link].lastSubmitDate
        case Null =>
          needsRenew := Some(true);
        case Unparsable =>
          return Failure(ValueError);
        case Iso(t) =>
          if RenewalStart(now, settings.daysBeforeRenewArchive) < t {
            needsRenew := Some(false);
          }
      }
      if needsRenew.None? {
        return Failure(UnboundLocalError);
      }
      r := Success(needsRenew == Some(false));
    }

    /**
     * `archive_link`: the local check, then `find` and `needs_renewal`, then
     * either adopting the latest memento or a capture whose outcome is
     * written.  `searches` and `captured` count the remote calls made.
     */
    method ArchiveLink(link: string, now: int, first: seq<Memento>, second: seq<Memento>, capture: CaptureResult)
      returns (r: LinkOutcome, ghost searches: nat, ghost captured: bool)
      requires Valid() && dbInitialized
      modifies this`db
      ensures Valid()
      ensures var run := ArchiveLinkRun(old(db), link, now, settings.daysBeforeRenewArchive, first, second, capture);
              r == run.outcome && db == run.db && searches == run.searches && captured == run.captured
    {
      var recent := DbContainsRecentLinkArchive(link, now);
      if recent.Failure? {
        return Raised(recent.error), 0, false;
      }
      if recent.value {
        return Completed, 0, false;
      }
      var archiver := new Archiver(link, settings.daysBeforeRenewArchive);
      archiver.Find(first);
      var renew := archiver.NeedsRenewal(second, now);
      searches := archiver.searches;
      if renew.value {
        var outcome := archiver.Archive(capture);
        captured := true;
        match outcome
        case Captured(archiveUrl) =>
          WriteArchiveToDb(link, WaybackMachine, now, archiveUrl);
        case BlockedByRobots =>
          WriteBlockedToDb(link, RobotsReason, now);
        case WaybackRuntimeError =>
          WriteBlockedToDb(link, UnknownErrorReason, now);
      } else {
        captured := false;
        var m := archiver.latestMemento.value;
        WriteArchiveToDb(link, WaybackMachine, m.timestamp, m.rawUrl);
      }
      r := Completed;
    }

    /**
     * `parse_page`: on the first page, initialise the database and load the
     * site's rules; then, unless a deny pattern matches the page URL, save
     * its off-site links and archive it.
     */
    method ParsePage(response: Response, urlparse: string -> ParsedUrl, now: int,
                     first: seq<Memento>, second: seq<Memento>, capture: CaptureResult,
                     matches: (string, string) -> bool)
      returns (r: LinkOutcome)
      requires Valid()
      modifies this`db, this`connOpen, this`dbInitialized, this`linkDeny
      ensures Valid() && dbInitialized
      ensures linkDeny == old(linkDeny) +
                (if old(connOpen) then [] else LoadedRules(old(db.scrapeRules), urlparse(startUrls[0]).netloc))
      ensures var db0 := old(db).(tables := AllTables);
              var db1 := if settings.collectOffsite
                         then db0.(blocked := OffsiteWrites(db0.blocked, response.offsiteLinks, response.url, now))
                         else db0;
              var run := ArchiveLinkRun(db1, response.url, now, settings.daysBeforeRenewArchive, first, second, capture);
              if NoDenyRuleMatches(linkDeny, response.url, matches)
              then r == run.outcome && db == run.db
              else r == Completed && db == db0
    {
      if !connOpen {
        InitDatabase();
        PopulateCustomArchiveRules(startUrls[0], urlparse);
      } else {
        assert db == db.(tables := AllTables);
      }
      var archivePage := LinkDenyAllows(response.url, matches);
      r := Completed;
      if archivePage {
        SaveOffsiteLinks(response, now);
        ghost var searches: nat;
        ghost var captured: bool;
        r, searches, captured := ArchiveLink(response.url, now, first, second, capture);
      }
    }
  }
}
