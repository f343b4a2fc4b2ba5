/**
 * The site-specific spider of site_specific/eq_wiki.py for the
 * learn.equalit.ie wiki: for each page it derives the wiki title from the
 * URL path, fetches the page's raw wikitext, and submits the page (and the
 * raw URL, when that was found) through DocOps' `Archive`.
 *
 * The HTTP response of the raw fetch and the behaviour of the DocOps
 * archive calls are inputs; `urlparse` is a function-valued input.
 */
module EqWiki {
  import opened Common

  const BaseUrl: string := "https://learn.equalit.ie"

  /** What `urlparse` gives for the base URL. */
  const BaseParsed: ParsedUrl := ParsedUrl("https", "learn.equalit.ie", "")

  /** The argument of `str.strip` in `parse_page`: a set of characters, not a prefix. */
  const StripArgument: string := "/wiki/"

  const RawPrefix: string := "https://learn.equalit.ie/mw/index.php?title="
  const RawSuffix: string := "&action=raw"

  const MaxTitleLength: nat := 100
  const RawDataDirectory: string := "/etc/spider/data/learn_equalit.ie/"

  /** The constructor's fixed base URL passes the scheme check. */
  lemma FixedStart()
    ensures SpiderSetup(BaseUrl, BaseParsed) == Success(Setup([BaseUrl], ["learn.equalit.ie"]))
  {
  }

  // ---------------------------------------------------------------------
  // str.strip(chars)
  // ---------------------------------------------------------------------

  /** The first index at or after `i` whose character is not in `chars`. */
  function SkipLeading(s: string, chars: string, i: nat): (j: nat)
    requires i <= |s|
    ensures i <= j <= |s|
    ensures forall k :: i <= k < j ==> s[k] in chars
    ensures j < |s| ==> s[j] !in chars
    decreases |s| - i
  {
    if i < |s| && s[i] in chars then SkipLeading(s, chars, i + 1) else i
  }

  /** Moving the end `j` down, but not below `lo`, past characters in `chars`. */
  function SkipTrailing(s: string, chars: string, lo: nat, j: nat): (h: nat)
    requires lo <= j <= |s|
    ensures lo <= h <= j
    ensures forall k :: h <= k < j ==> s[k] in chars
    ensures lo < h ==> s[h - 1] !in chars
    decreases j
  {
    if lo < j && s[j - 1] in chars then SkipTrailing(s, chars, lo, j - 1) else j
  }

  /**
   * The slice `s[lo..hi]` that `s.strip(chars)` returns: every character
   * removed from either end is in `chars`, and a non-empty result neither
   * starts nor ends with one.
   */
  function StripSpan(s: string, chars: string): (span: (nat, nat))
    ensures span.0 <= span.1 <= |s|
    ensures forall k :: 0 <= k < span.0 ==> s[k] in chars
    ensures forall k :: span.1 <= k < |s| ==> s[k] in chars
    ensures span.0 < span.1 ==> s[span.0] !in chars && s[span.1 - 1] !in chars
  {
    var lo := SkipLeading(s, chars, 0);
    (lo, SkipTrailing(s, chars, lo, |s|))
  }

  function Strip(s: string, chars: string): string {
    s[StripSpan(s, chars).0..StripSpan(s, chars).1]
  }

  /** Stripping a second time removes nothing more. */
  lemma StripIdempotent(s: string, chars: string)
    ensures Strip(Strip(s, chars), chars) == Strip(s, chars)
  {
    var r := Strip(s, chars);
    var (lo, hi) := StripSpan(r, chars);
    if r != [] {
      assert r[0] !in chars && r[|r| - 1] !in chars;
      assert lo == 0;
      assert hi == |r|;
    }
  }

  /** `urlparse(response.url).path.strip("/wiki/")` */
  function RespPath(path: string): string {
    Strip(path, StripArgument)
  }

  /**
   * The wiki title is a contiguous piece of the path; what was removed at
   * either end consists of '/', 'w', 'i' and 'k' only, and the title itself
   * neither starts nor ends with one of them.
   */
  lemma RespPathShape(path: string)
    ensures var (lo, hi) := StripSpan(path, StripArgument);
            && RespPath(path) == path[lo..hi]
            && (forall k :: 0 <= k < lo || hi <= k < |path| ==> path[k] in {'/', 'w', 'i', 'k'})
    ensures var t := RespPath(path);
            t != [] ==> t[0] !in {'/', 'w', 'i', 'k'} && t[|t| - 1] !in {'/', 'w', 'i', 'k'}
  {
    var t := RespPath(path);
    if t != [] {
      var (lo, hi) := StripSpan(path, StripArgument);
      assert t[0] == path[lo] && t[|t| - 1] == path[hi - 1];
    }
  }

  /** Titles whose own letters are among "/wiki/" lose them: "/wiki/Kiwi" gives "K". */
  lemma StripIsNotPrefixRemoval()
    ensures RespPath("/wiki/Kiwi") == "K"
    ensures RespPath("/wiki/kiwi") == ""
  {
    assert StripSpan("/wiki/Kiwi", StripArgument) == (6, 7);
    assert StripSpan("/wiki/kiwi", StripArgument) == (10, 10);
  }

  // ---------------------------------------------------------------------
  // The raw URL and the saved file's name
  // ---------------------------------------------------------------------

  /** `'https://learn.equalit.ie/mw/index.php?title={0}&action=raw'.format(title)` */
  function RawUrl(title: string): string {
    RawPrefix + title + RawSuffix
  }

  /** The title can be read back from the raw URL, so different titles give different raw URLs. */
  lemma RawUrlTitle(title: string, other: string)
    ensures |RawUrl(title)| == |RawPrefix| + |title| + |RawSuffix|
    ensures RawUrl(title)[..|RawPrefix|] == RawPrefix
    ensures RawUrl(title)[|RawPrefix|..|RawPrefix| + |title|] == title
    ensures RawUrl(title)[|RawPrefix| + |title|..] == RawSuffix
    ensures RawUrl(title) == RawUrl(other) ==> title == other
  {
    var u := RawUrl(title);
    assert u[..|RawPrefix|] == RawPrefix;
    assert u[|RawPrefix|..|RawPrefix| + |title|] == title;
    assert u[|RawPrefix| + |title|..] == RawSuffix;
    if u == RawUrl(other) {
      assert |other| == |title|;
      assert RawUrl(other)[|RawPrefix|..|RawPrefix| + |other|] == other;
    }
  }

  /** `title.replace("/", "_")` */
  function ReplaceSlashes(s: string): (r: string)
    ensures |r| == |s|
    ensures forall i :: 0 <= i < |s| ==> r[i] == (if s[i] == '/' then '_' else s[i])
    decreases |s|
  {
    if s == [] then []
    else [if s[0] == '/' then '_' else s[0]] + ReplaceSlashes(s[1..])
  }

  /**
   * The file name `download_raw` uses: slashes become underscores and the
   * result is cut to its first 100 characters.
   */
  function FormattedTitle(title: string): (r: string)
    ensures '/' !in r
    ensures |r| == if |title| <= MaxTitleLength then |title| else MaxTitleLength
    ensures forall i :: 0 <= i < |r| ==> r[i] == (if title[i] == '/' then '_' else title[i])
    ensures |ReplaceSlashes(title)| <= MaxTitleLength ==> r == ReplaceSlashes(title)
    ensures |ReplaceSlashes(title)| > MaxTitleLength ==> r == ReplaceSlashes(title)[..MaxTitleLength]
  {
    var replaced := ReplaceSlashes(title);
    var r := if |replaced| > MaxTitleLength then replaced[0..MaxTitleLength] else replaced;
    assert forall i :: 0 <= i < |r| ==> r[i] != '/';
    r
  }

  /**
   * `download_raw`: fetches the raw URL (its response succeeds iff
   * `responseOk`), saves the body under the formatted title, and reports
   * whether the raw page was found.
   */
  method DownloadRaw(title: string, url: string, responseOk: bool) returns (found: bool, path: string)
    ensures found == responseOk
    ensures path == RawDataDirectory + FormattedTitle(title)
    ensures path[|RawDataDirectory|..] == FormattedTitle(title) && '/' !in path[|RawDataDirectory|..]
  {
    var formattedTitle := FormattedTitle(title);
    path := RawDataDirectory + formattedTitle;
    assert path[|RawDataDirectory|..] == formattedTitle;
    found := responseOk;
  }

  // ---------------------------------------------------------------------
  // archive_link
  // ---------------------------------------------------------------------

  /** Exceptions the DocOps calls can raise; the first four are caught. */
  datatype DocOpsError =
    | HTTPError
    | RobotAccessControlException
    | MissingArchiveError
    | UnknownArchiveException
    | OtherError(name: string)

  predicate Caught(e: DocOpsError) {
    !e.OtherError?
  }

  /** A call that returns nothing or raises. */
  datatype Step = Completes | Throws(error: DocOpsError)

  /** How the three DocOps calls behave for one link: `Archive(link)`, `submit()`, `request()`. */
  datatype DocOpsScript = DocOpsScript(create: Step, submit: Step, request: Result<string, DocOpsError>)

  datatype DocOpsCall = NewArchive | Submit | Request

  /**
   * The value `archive_link` returns, or the exception it lets escape:
   * the archive `request()` returns when every call succeeds, None when
   * the first failing call raises one of the four caught exceptions.
   */
  function ArchiveLinkResult(s: DocOpsScript): (r: Result<Option<string>, DocOpsError>)
    ensures r.Success? && r.value.Some? <==> s.create.Completes? && s.submit.Completes? && s.request.Success?
    ensures r.Success? && r.value.Some? ==> r.value.value == s.request.value
    ensures s.create.Throws? ==> r == (if Caught(s.create.error) then Success(None) else Failure(s.create.error))
    ensures s.create.Completes? && s.submit.Throws? ==>
              r == (if Caught(s.submit.error) then Success(None) else Failure(s.submit.error))
    ensures s.create.Completes? && s.submit.Completes? && s.request.Failure? ==>
              r == (if Caught(s.request.error) then Success(None) else Failure(s.request.error))
  {
    if s.create.Throws? then (if Caught(s.create.error) then Success(None) else Failure(s.create.error))
    else if s.submit.Throws? then (if Caught(s.submit.error) then Success(None) else Failure(s.submit.error))
    else match s.request
      case Success(archive) => Success(Some(archive))
      case Failure(e) => if Caught(e) then Success(None) else Failure(e)
  }

  /**
   * `archive_link`: the three DocOps calls in order inside one `try`;
   * `calls` lists those made, so `request()` happens only after `submit()`.
   */
  method ArchiveLink(link: string, script: DocOpsScript)
    returns (r: Result<Option<string>, DocOpsError>, ghost calls: seq<DocOpsCall>)
    ensures r == ArchiveLinkResult(script)
    ensures 1 <= |calls| <= 3 && calls == [NewArchive, Submit, Request][..|calls|]
    ensures |calls| == if script.create.Throws? then 1 else if script.submit.Throws? then 2 else 3
  {
    var raised: Option<DocOpsError> := None;
    calls := [NewArchive];
    if script.create.Throws? {
      raised := Some(script.create.error);
    } else {
      calls := calls + [Submit];
      if script.submit.Throws? {
        raised := Some(script.submit.error);
      } else {
        calls := calls + [Request];
        match script.request
        case Success(archive) =>
          return Success(Some(archive)), calls;
        case Failure(e) =>
          raised := Some(e);
      }
    }
    if Caught(raised.value) {
      r := Success(None);
    } else {
      r := Failure(raised.value);
    }
  }

  // ---------------------------------------------------------------------
  // parse_page
  // ---------------------------------------------------------------------

  /** One item `parse_page` yields. */
  datatype UrlItem = UrlItem(url: string, archive: Option<string>)

  /** `resp_urls`: the page URL, then the raw URL when its download was found. */
  function ResponseUrls(url: string, path: string, rawFound: bool): seq<string> {
    [url] + if rawFound then [RawUrl(RespPath(path))] else []
  }

  /**
   * `parse_page`: downloads the raw page first, then archives each URL of
   * `resp_urls` in order and yields one item per URL; an exception that
   * `archive_link` lets escape ends the generator after the items yielded.
   */
  method ParsePage(responseUrl: string, urlparse: string -> ParsedUrl, rawOk: bool, docops: string -> DocOpsScript)
    returns (items: seq<UrlItem>, escaped: Option<DocOpsError>)
    ensures var urls := ResponseUrls(responseUrl, urlparse(responseUrl).path, rawOk);
            && |items| <= |urls|
            && (forall i :: 0 <= i < |items| ==>
                  ArchiveLinkResult(docops(urls[i])).Success? &&
                  items[i] == UrlItem(urls[i], ArchiveLinkResult(docops(urls[i])).value))
            && (escaped.None? <==> |items| == |urls|)
            && (escaped.Some? ==> ArchiveLinkResult(docops(urls[|items|])) == Failure(escaped.value))
    ensures items != [] ==> items[0].url == responseUrl
    ensures |items| == 2 ==> rawOk && items[1].url == RawUrl(RespPath(urlparse(responseUrl).path))
  {
    var respUrls := [responseUrl];
    var respPath := RespPath(urlparse(responseUrl).path);
    var rawUrl := RawUrl(respPath);
    var rawFound, _ := DownloadRaw(respPath, rawUrl, rawOk);
    if rawFound {
      respUrls := respUrls + [rawUrl];
    }
    items, escaped := [], None;
    for i := 0 to |respUrls|
      invariant |items| == i
      invariant forall j :: 0 <= j < i ==>
                  ArchiveLinkResult(docops(respUrls[j])).Success? &&
                  items[j] == UrlItem(respUrls[j], ArchiveLinkResult(docops(respUrls[j])).value)
    {
      var archive, _ := ArchiveLink(respUrls[i], docops(respUrls[i]));
      if archive.Failure? {
        escaped := Some(archive.error);
        return;
      }
      items := items + [UrlItem(respUrls[i], archive.value)];
    }
  }
}
