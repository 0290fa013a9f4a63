/**
 * `extract_text_from_pdf`: downloads the located report and turns its pages into
 * one normalised text.  The download and the PDF decoding are inputs: `None`
 * when the request or the decoding raised, otherwise the text `extract_text`
 * gives for each page (`None` for a page without text).
 */
module Extractor {
  import opened Wrappers
  import opened Strings

  /** What one page adds to the text: its collapsed text, or nothing when it has none. */
  function PageContribution(page: Option<string>): string
  {
    if page.Some? && page.value != "" then Collapse(page.value) else ""
  }

  /** The text of all pages, page after page, with no separator between pages. */
  function PagesText(pages: seq<Option<string>>): string
  {
    if pages == [] then "" else PagesText(pages[..|pages| - 1]) + PageContribution(pages[|pages| - 1])
  }

  /** What the extractor returns for a download: `None` when it failed, else the pages' text. */
  function ExtractedText(download: Option<seq<Option<string>>>): Option<string>
  {
    if download.Some? then Some(PagesText(download.value)) else None
  }

  /** The page loop; a failure is reported to the operator (`st.error`) before `None` is returned. */
  method ExtractText(download: Option<seq<Option<string>>>) returns (text: Option<string>, errorReported: bool)
    ensures errorReported <==> download.None?
    ensures text == ExtractedText(download)
  {
    if download.None? {
      return None, true;
    }
    var pages := download.value;
    var fullText := "";
    for i := 0 to |pages|
      invariant fullText == PagesText(pages[..i])
    {
      var pageText := pages[i];
      if pageText.Some? && pageText.value != "" {
        fullText := fullText + Collapse(pageText.value);
      }
      assert pages[..i + 1] == pages[..i] + [pageText];
      PagesTextAppend(pages[..i], pageText);
    }
    assert pages[..|pages|] == pages;
    return Some(fullText), false;
  }

  /** The raw page texts joined, before any whitespace normalisation. */
  function RawText(pages: seq<Option<string>>): string
  {
    if pages == [] then "" else RawText(pages[..|pages| - 1]) + pages[|pages| - 1].GetOr("")
  }

  /** The extracted text is empty exactly when no page has any text. */
  lemma {:induction false} PagesTextEmptyIff(pages: seq<Option<string>>)
    ensures PagesText(pages) == "" <==> forall i :: 0 <= i < |pages| ==> pages[i].None? || pages[i].value == ""
  {
    if pages != [] {
      var init := pages[..|pages| - 1];
      PagesTextEmptyIff(init);
      assert forall i :: 0 <= i < |init| ==> init[i] == pages[i];
    }
  }

  /** Only whitespace changes: the non-whitespace text of all pages survives, in page order. */
  lemma {:induction false} PagesTextKeepsText(pages: seq<Option<string>>)
    ensures Strip(PagesText(pages)) == Strip(RawText(pages))
  {
    if pages != [] {
      var init, last := pages[..|pages| - 1], pages[|pages| - 1];
      PagesTextKeepsText(init);
      StripAppend(PagesText(init), PageContribution(last));
      StripAppend(RawText(init), last.GetOr(""));
      if last.Some? && last.value != "" {
        CollapseKeepsText(last.value);
      }
    }
  }

  /** The only whitespace character left in the extracted text is the plain space. */
  lemma {:induction false} PagesTextPlainSpaces(pages: seq<Option<string>>)
    ensures forall i :: 0 <= i < |PagesText(pages)| && IsSpace(PagesText(pages)[i]) ==> PagesText(pages)[i] == ' '
  {
    if pages != [] {
      var init := pages[..|pages| - 1];
      PagesTextPlainSpaces(init);
      var a, b := PagesText(init), PageContribution(pages[|pages| - 1]);
      assert PagesText(pages) == a + b;
      forall i | 0 <= i < |a + b| && IsSpace((a + b)[i]) ensures (a + b)[i] == ' ' {
        if i >= |a| { assert (a + b)[i] == b[i - |a|]; }
      }
    }
  }

  /** Appending a page appends its contribution, with nothing in between. */
  lemma {:induction false} PagesTextAppend(pages: seq<Option<string>>, page: Option<string>)
    ensures PagesText(pages + [page]) == PagesText(pages) + PageContribution(page)
  {
    assert (pages + [page])[..|pages|] == pages;
  }

  /** A page whose text ends with whitespace leaves the extracted text ending with a plain space. */
  lemma {:induction false} EndsWithSpace(pages: seq<Option<string>>, x: string)
    requires pages != [] && pages[|pages| - 1] == Some(x)
    requires x != [] && IsSpace(x[|x| - 1])
    ensures var t := PagesText(pages); t != [] && t[|t| - 1] == ' '
  {
    var cx := Collapse(x);
    assert cx != [] && cx[|cx| - 1] == ' ' by {
      CollapseLast(x);
    }
    assert PagesText(pages) == PagesText(pages[..|pages| - 1]) + cx;
  }

  /**
   * Runs are collapsed within a page only: when one page ends with whitespace
   * and the next starts with whitespace, the text holds two spaces in a row.
   */
  lemma {:induction false} RunAcrossPageBoundary(pages: seq<Option<string>>, x: string, y: string)
    requires pages != [] && pages[|pages| - 1] == Some(x)
    requires x != [] && IsSpace(x[|x| - 1])
    requires y != [] && IsSpace(y[0])
    ensures var k, after := |PagesText(pages)|, PagesText(pages + [Some(y)]);
      1 <= k < |after| && after[k - 1] == ' ' && after[k] == ' '
  {
    var before, cy, after := PagesText(pages), Collapse(y), PagesText(pages + [Some(y)]);
    assert after == before + cy by {
      PagesTextAppend(pages, Some(y));
    }
    assert before != [] && before[|before| - 1] == ' ' by {
      EndsWithSpace(pages, x);
    }
    assert cy != [] && cy[0] == ' ';
    assert after[|before|] == cy[0];
  }

  /** A page without text (none, or empty) leaves the extracted text unchanged. */
  lemma {:induction false} TextlessPageAddsNothing(pages: seq<Option<string>>, page: Option<string>)
    requires page.None? || page.value == ""
    ensures PagesText(pages + [page]) == PagesText(pages)
  {
    PagesTextAppend(pages, page);
    assert PagesText(pages) + [] == PagesText(pages);
  }
}
