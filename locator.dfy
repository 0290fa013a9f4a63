/**
 * `get_latest_report_url`: finds the download link of the newest annual report
 * on Bank Al-Maghrib's publications page.  The page fetch and the HTML parse are
 * inputs: the page either failed to load, or yields the `<option>` elements of
 * its `select.selectDownloadFile` element (absent when the page has none).
 */
module Locator {
  import opened Wrappers
  import opened Strings

  /** A URL split into the parts `urlparse` gives the locator. */
  datatype Url = Url(scheme: string, netloc: string, path: string)

  /** An `<option>` element; `value` is its `value` attribute, `None` when it has none. */
  datatype HtmlOption = HtmlOption(value: Option<string>)

  /** What fetching and parsing the landing page gives the locator. */
  datatype LandingPage =
    | FetchFailed                                        // request error, bad status or parse error
    | Fetched(downloadSelect: Option<seq<HtmlOption>>)   // options of the download select, if present

  /** The year substring an option value must contain. */
  const YearFilter := "2023"

  /** The `find_all` filter: the value attribute is present, non-empty and mentions the year. */
  predicate Qualifies(o: HtmlOption)
  {
    o.value.Some? && o.value.value != "" && Contains(o.value.value, YearFilter)
  }

  /** Values of the qualifying options, in document order (what `find_all` returns). */
  function Qualifying(options: seq<HtmlOption>): (vs: seq<string>)
    ensures |vs| <= |options|
    ensures forall i :: 0 <= i < |vs| ==> vs[i] != "" && Contains(vs[i], YearFilter)
  {
    if options == [] then []
    else (if Qualifies(options[0]) then [options[0].value.value] else []) + Qualifying(options[1..])
  }

  /**
   * The located report URL: the first qualifying option's value, put under the
   * landing page's scheme and host (never under its path); `None` when the page
   * failed, has no download select, or no option qualifies.
   */
  function LatestReportUrl(page: LandingPage, base: Url): Option<Url>
  {
    if page.FetchFailed? || page.downloadSelect.None? then None
    else
      var found := Qualifying(page.downloadSelect.value);
      if found == [] then None else Some(Url(base.scheme, base.netloc, found[0]))
  }

  /** The head of `Qualifying` is the value of the first qualifying option; it is empty when none qualifies. */
  lemma {:induction false} QualifyingHead(options: seq<HtmlOption>)
    ensures Qualifying(options) == [] <==> forall j :: 0 <= j < |options| ==> !Qualifies(options[j])
    ensures Qualifying(options) != [] ==>
      exists k :: 0 <= k < |options| && Qualifies(options[k])
        && (forall j :: 0 <= j < k ==> !Qualifies(options[j]))
        && Qualifying(options)[0] == options[k].value.value
  {
    if options != [] {
      QualifyingHead(options[1..]);
      if !Qualifies(options[0]) && Qualifying(options) != [] {
        var k :| 0 <= k < |options[1..]| && Qualifies(options[1..][k])
          && (forall j :: 0 <= j < k ==> !Qualifies(options[1..][j]))
          && Qualifying(options[1..])[0] == options[1..][k].value.value;
        assert forall j :: 1 <= j < k + 1 ==> options[j] == options[1..][j - 1];
        assert Qualifies(options[k + 1]);
      }
      if Qualifies(options[0]) {
        assert Qualifying(options)[0] == options[0].value.value;
      }
      if Qualifying(options) == [] {
        forall j | 0 <= j < |options| ensures !Qualifies(options[j]) {
          if j > 0 { assert options[j] == options[1..][j - 1]; }
        }
      }
    }
  }

  /**
   * The locator's contract: it finds a URL exactly when the page loaded, has the
   * download select and some option qualifies; the URL is then built from the
   * first qualifying option in document order, on the base URL's scheme and host.
   */
  lemma {:induction false} LatestReportUrlIsFirstMatch(page: LandingPage, base: Url)
    ensures LatestReportUrl(page, base).Some? <==>
      page.Fetched? && page.downloadSelect.Some?
      && exists k :: 0 <= k < |page.downloadSelect.value| && Qualifies(page.downloadSelect.value[k])
    ensures LatestReportUrl(page, base).Some? ==>
      var options := page.downloadSelect.value;
      exists k :: 0 <= k < |options| && Qualifies(options[k])
        && (forall j :: 0 <= j < k ==> !Qualifies(options[j]))
        && LatestReportUrl(page, base) == Some(Url(base.scheme, base.netloc, options[k].value.value))
  {
    if page.Fetched? && page.downloadSelect.Some? {
      QualifyingHead(page.downloadSelect.value);
    }
  }
}
