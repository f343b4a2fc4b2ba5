/**
 * Definitions shared by the two spiders: result wrappers, the part of
 * urllib's `urlparse` result the spiders read, and the start-URL check
 * that both spiders' constructors perform.
 */
module Common {

  datatype Option<+T> = None | Some(value: T)

  datatype Result<+T, +E> = Success(value: T) | Failure(error: E)

  /** The fields of a `urlparse` result that the spiders use. */
  datatype ParsedUrl = ParsedUrl(scheme: string, netloc: string, path: string)

  /** The ValueError raised when the base URL has no scheme. */
  datatype ConfigError = NotAFullUrl(example: string)

  const FullUrlExample: string := "[http[s]]//[host].[domain].[tld]"

  /** The crawl configuration a spider's constructor fixes. */
  datatype Setup = Setup(startUrls: seq<string>, allowedDomains: seq<string>)

  /**
   * The constructor's check of the base URL: a URL without a scheme is
   * refused; otherwise the crawl starts at the base URL and is confined to
   * its network location.
   */
  function SpiderSetup(baseUrl: string, parsed: ParsedUrl): (r: Result<Setup, ConfigError>)
    ensures r.Failure? <==> parsed.scheme == ""
    ensures r.Failure? ==> r.error == NotAFullUrl(FullUrlExample)
    ensures r.Success? ==> r.value.startUrls == [baseUrl] && r.value.allowedDomains == [parsed.netloc]
  {
    if parsed.scheme == "" then Failure(NotAFullUrl(FullUrlExample))
    else Success(Setup([baseUrl], [parsed.netloc]))
  }
}
