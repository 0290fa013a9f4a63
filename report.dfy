/**
 * `get_bam_report_data`: locate the latest Bank Al-Maghrib report, download
 * and extract it, parse it, and fall back to a fixed nine-row table when any
 * step comes up empty.  The Streamlit session entry `bam_source_url`, which
 * survives across runs, is the field of `Session`.
 */
module Report {
  import opened Wrappers
  import opened Locator
  import opened Extractor
  import opened Parser

  /** The institutional-publications page the locator starts from. */
  const PageUrl := Url("https", "www.bkam.ma",
    "/fr/Publications-et-recherche/Publications-institutionnelles/Rapport-annuel-sur-les-infrastructures-des-marches-financiers-et-les-moyens-de-paiement-leur-surveillance-et-l-inclusion-financiere")

  function TextRow(category: string, metric: string, y2022: string, y2023: string, growth: string): MetricRow
  {
    MetricRow(category, metric, Text(y2022), Text(y2023), Text(growth))
  }

  /** The 2022/2023 figures shown whenever the live report cannot be used. */
  const FallbackTable: seq<MetricRow> := [
    TextRow(PosCategory, CountMetric, "106.4 million", "131.3 million", "+23%"),
    TextRow("", ValueMetric, "MAD 39.2 billion", "MAD 46.9 billion", "+19.9%"),
    TextRow("", "\U{21B3} of which Contactless", "55.4 million (52% of POS)", "75.4 million (57% of POS)", "+36.1% (in transaction count)"),
    TextRow("eCommerce Payments", CountMetric, "26.8 million", "32.1 million", "+20%"),
    TextRow("", ValueMetric, "MAD 8.6 billion", "MAD 9.9 billion", "+15%"),
    TextRow(MobileCategory, CountMetric, "7.9 million", "9.7 million", "+23%"),
    TextRow("", ValueMetric, "MAD 1.7 billion", "MAD 2.1 billion", "+23%"),
    TextRow("Card-based Cash Withdrawals", CountMetric, "360 million", "402 million", "+12%"),
    TextRow("", ValueMetric, "MAD 351 billion", "MAD 399 billion", "+13%")
  ]

  /** Where an acquisition ended. */
  datatype EndState =
    | Scraped            // the parsed report table is returned
    | LinkNotFound       // the locator found no report: silent fallback
    | TextUnavailable    // extraction failed (reported) or gave empty text (silent): fallback
    | NothingMatched     // no parsing rule fired: silent fallback

  datatype Acquisition = Acquisition(located: Option<Url>, end: EndState, table: seq<MetricRow>, errorReported: bool)

  /** One acquisition, step by step: locate, then download and extract, then parse. */
  function Acquire(landing: LandingPage, download: Url -> Option<seq<Option<string>>>, rx: string -> Matches): Acquisition
  {
    var located := LatestReportUrl(landing, PageUrl);
    if located.None? then Acquisition(located, LinkNotFound, FallbackTable, false)
    else
      var text := ExtractedText(download(located.value));
      if text.None? || text.value == "" then Acquisition(located, TextUnavailable, FallbackTable, text.None?)
      else
        var rows := ParsedRows(rx(text.value));
        if rows == [] then Acquisition(located, NothingMatched, FallbackTable, false)
        else Acquisition(located, Scraped, rows, false)
  }

  /**
   * The fallback contract: the result is exactly the fixed nine-row table when
   * no report is located, its text is missing or empty, or no rule fires, and
   * the parsed rows exactly when all three steps succeed; each way of ending
   * is characterised in both directions, and only a failed extraction is
   * reported.
   */
  lemma {:induction false} FallbackExactlyOnFailure(landing: LandingPage, download: Url -> Option<seq<Option<string>>>, rx: string -> Matches)
    ensures var a := Acquire(landing, download, rx);
      var located := LatestReportUrl(landing, PageUrl);
      && (a.table == FallbackTable <==> a.end != Scraped)
      && (a.end == LinkNotFound <==> located.None?)
      && (a.end == TextUnavailable <==>
            located.Some? && (download(located.value).None? || PagesText(download(located.value).value) == ""))
      && (a.end == NothingMatched <==>
            located.Some? && download(located.value).Some? && PagesText(download(located.value).value) != ""
            && ParsedRows(rx(PagesText(download(located.value).value))) == [])
      && (a.end == Scraped <==>
            located.Some? && download(located.value).Some? && PagesText(download(located.value).value) != ""
            && ParsedRows(rx(PagesText(download(located.value).value))) != [])
      && (a.end == Scraped ==>
            var text := PagesText(download(located.value).value);
            a.table == ParsedRows(rx(text)) && 2 <= |a.table| <= 4)
      && (a.errorReported <==> located.Some? && download(located.value).None?)
  {
    var a := Acquire(landing, download, rx);
    var located := LatestReportUrl(landing, PageUrl);
    if a.end == Scraped {
      ParsedRowsShape(rx(PagesText(download(located.value).value)));
      assert |FallbackTable| == 9;
    }
  }

  /** The session's source reference after a run that located `located`. */
  function RecordSource(previous: Option<Url>, located: Option<Url>): Option<Url>
  {
    if located.Some? then located else if previous.Some? then previous else Some(PageUrl)
  }

  /** The source reference after a series of runs, oldest first, each given by what it located. */
  function SourceAfterRuns(initial: Option<Url>, runs: seq<Option<Url>>): Option<Url>
  {
    if runs == [] then initial else RecordSource(SourceAfterRuns(initial, runs[..|runs| - 1]), runs[|runs| - 1])
  }

  /**
   * Across runs, the source reference is the report URL located most recently;
   * if no run located one it keeps its initial value, and becomes the landing
   * page only when there was none.  A located report URL is never replaced by
   * the landing page.
   */
  lemma {:induction false} SourceIsLastLocated(initial: Option<Url>, runs: seq<Option<Url>>)
    requires runs != []
    ensures SourceAfterRuns(initial, runs).Some?
    ensures forall k :: 0 <= k < |runs| && runs[k].Some? && (forall j :: k < j < |runs| ==> runs[j].None?) ==>
      SourceAfterRuns(initial, runs) == runs[k]
    ensures (forall k :: 0 <= k < |runs| ==> runs[k].None?) ==>
      SourceAfterRuns(initial, runs) == if initial.Some? then initial else Some(PageUrl)
  {
    var init, last := runs[..|runs| - 1], runs[|runs| - 1];
    if init != [] {
      SourceIsLastLocated(initial, init);
      forall k | 0 <= k < |runs| - 1 && runs[k].Some? && (forall j :: k < j < |runs| ==> runs[j].None?)
        ensures SourceAfterRuns(initial, runs) == runs[k]
      {
        assert init[k] == runs[k];
        assert forall j :: k < j < |init| ==> init[j] == runs[j];
      }
      if forall k :: 0 <= k < |runs| ==> runs[k].None? {
        assert forall k :: 0 <= k < |init| ==> init[k] == runs[k];
      }
    }
  }

  /** Streamlit's per-browser session state, reduced to the entry the report flow writes. */
  class Session {
    var bamSourceUrl: Option<Url>

    constructor ()
      ensures bamSourceUrl.None?
    {
      bamSourceUrl := None;
    }

    /**
     * `get_bam_report_data`.  The returned table and the reported error are
     * those of `Acquire`; the source reference is overwritten whenever a
     * report URL is located, even when extraction or parsing then fails, and
     * set to the landing page on fallback only when it was still unset.
     */
    method GetBamReportData(landing: LandingPage, download: Url -> Option<seq<Option<string>>>, rx: string -> Matches)
      returns (table: seq<MetricRow>, errorReported: bool)
      modifies this
      ensures table == Acquire(landing, download, rx).table
      ensures errorReported == Acquire(landing, download, rx).errorReported
      ensures bamSourceUrl == RecordSource(old(bamSourceUrl), Acquire(landing, download, rx).located)
      ensures bamSourceUrl.Some?
      ensures Acquire(landing, download, rx).located.Some? ==> bamSourceUrl == Acquire(landing, download, rx).located
      ensures Acquire(landing, download, rx).located.None? && old(bamSourceUrl).Some? ==> bamSourceUrl == old(bamSourceUrl)
    {
      errorReported := false;
      var latestPdfUrl := LatestReportUrl(landing, PageUrl);
      if latestPdfUrl.Some? {
        bamSourceUrl := latestPdfUrl;
        var reportText, reported := ExtractText(download(latestPdfUrl.value));
        errorReported := reported;
        if reportText.Some? && reportText.value != "" {
          var parsed := ParsePaymentData(rx(reportText.value));
          if parsed != [] {
            return parsed, false;
          }
        }
      }
      if bamSourceUrl.None? {
        bamSourceUrl := Some(PageUrl);
      }
      table := FallbackTable;
    }
  }
}
