/** The page selection of the LER text extractor (src/preprocessing/1_ler_to_text.py): each
    report keeps its pages from the first one that carries the heading of the report form,
    and their texts, joined by line breaks, are written to a text file named after the
    report. */
module LerPages {
  import opened Text

  /** The heading that marks the first page of the report form. */
  const Heading: string := "LICENSEE EVENT REPORT (LER)"
  /** What is written for a report none of whose pages carries the heading. */
  const NoHeading: string := "LICENSEE EVENT REPORT (LER) not found."
  /** What is written for a report that cannot be read. */
  const ExtractError: string := "Error extracting text."

  /** A report as the PDF reader sees it: the text of each page, `None` for a page without
      text; the whole report is `None` when opening or reading it raises. */
  type Pages = seq<Option<string>>

  /** `page.extract_text() or ""`: a page without text counts as empty. */
  function PageText(page: Option<string>): string
  {
    if page.Some? then page.value else ""
  }

  /** The page's text, upper-cased, contains the heading. */
  predicate HasHeading(page: Option<string>)
  {
    Contains(Upper(PageText(page)), Heading)
  }

  /** The index of the first page that carries the heading. */
  function StartPage(pages: Pages): Option<nat>
  {
    FirstIndex((i: nat) => i < |pages| && HasHeading(pages[i]), 0, |pages|)
  }

  /** The texts of the pages from `start` to the last, in order. */
  function TextsFrom(pages: Pages, start: nat): (ts: seq<string>)
    requires start <= |pages|
    ensures |ts| == |pages| - start
  {
    seq(|pages| - start, k requires 0 <= k < |pages| - start => PageText(pages[start + k]))
  }

  /** What the text file of a readable report holds. */
  function ReportText(pages: Pages): string
  {
    match StartPage(pages)
    case None => NoHeading
    case Some(s) => Join("\n", TextsFrom(pages, s))
  }

  /** The body of the `with pdfplumber.open(...)` block: the loop that breaks at the first
      page with the heading, then the loop that collects the texts from that page on. */
  method ExtractReportText(pages: Pages) returns (text: string)
    ensures text == ReportText(pages)
  {
    var start := FindStartPage(pages);
    if start.None? {
      return NoHeading;
    }
    var texts := CollectTexts(pages, start.value);
    text := Join("\n", texts);
  }

  /** The first loop: the index of the first page with the heading. */
  method FindStartPage(pages: Pages) returns (start: Option<nat>)
    ensures start == StartPage(pages)
  {
    var idx := 0;
    while idx < |pages|
      invariant idx <= |pages|
      invariant forall i | 0 <= i < idx :: !HasHeading(pages[i])
    {
      if HasHeading(pages[idx]) {
        StartPageAt(pages, idx);
        return Some(idx);
      }
      idx := idx + 1;
    }
    StartPageSpec(pages);
    return None;
  }

  /** The first page with the heading is where the report starts. */
  lemma StartPageAt(pages: Pages, s: nat)
    requires s < |pages| && HasHeading(pages[s]) && forall i | 0 <= i < s :: !HasHeading(pages[i])
    ensures StartPage(pages) == Some(s)
  {
    StartPageSpec(pages);
  }

  /** The second loop: the texts of the pages from `s` on. */
  method CollectTexts(pages: Pages, s: nat) returns (texts: seq<string>)
    requires s <= |pages|
    ensures texts == TextsFrom(pages, s)
  {
    texts := [];
    for p := s to |pages|
      invariant |texts| == p - s
      invariant forall k | 0 <= k < |texts| :: texts[k] == PageText(pages[s + k])
    {
      texts := texts + [PageText(pages[p])];
    }
  }

  /** The report starts at the first page with the heading, and there is no start exactly
      when no page has it. */
  lemma StartPageSpec(pages: Pages)
    ensures StartPage(pages).None? <==> forall i | 0 <= i < |pages| :: !HasHeading(pages[i])
    ensures StartPage(pages).Some? ==>
      var s := StartPage(pages).value;
      s < |pages| && HasHeading(pages[s]) && forall i | 0 <= i < s :: !HasHeading(pages[i])
  {
    var q := (i: nat) => i < |pages| && HasHeading(pages[i]);
    match FirstIndex(q, 0, |pages|)
    case None =>
      forall i | 0 <= i < |pages| ensures !HasHeading(pages[i]) {
        assert !q(i);
      }
    case Some(s) =>
      assert q(s);
      forall i | 0 <= i < s ensures !HasHeading(pages[i]) {
        assert !q(i);
      }
  }

  /** The written text begins with the start page's text: the pages before it are dropped. */
  lemma ReportBegins(pages: Pages)
    requires StartPage(pages).Some?
    ensures var t := PageText(pages[StartPage(pages).value]);
      |t| <= |ReportText(pages)| && ReportText(pages)[..|t|] == t
  {
    var s := StartPage(pages).value;
    JoinBegins("\n", TextsFrom(pages, s));
  }

  /** `sep.join(xs)` begins with `xs[0]`. */
  lemma JoinBegins(sep: string, xs: seq<string>)
    requires |xs| > 0
    ensures |xs[0]| <= |Join(sep, xs)| && Join(sep, xs)[..|xs[0]|] == xs[0]
  {
    if |xs| > 1 {
      assert Join(sep, xs) == xs[0] + (sep + Join(sep, xs[1..]));
    }
  }

  /** Every text file written for a readable report holds the heading, in upper case: either
      it begins with the page that carries it or it is the not-found message. */
  lemma HeadingKept(pages: Pages)
    ensures Contains(Upper(ReportText(pages)), Heading)
  {
    StartPageSpec(pages);
    match StartPage(pages)
    case None =>
      NotFoundHeading();
    case Some(s) =>
      var t := PageText(pages[s]);
      ReportBegins(pages);
      UpperPrefix(t, ReportText(pages));
  }

  /** The not-found message upper-cased begins with the heading. */
  lemma NotFoundHeading()
    ensures Contains(Upper(NoHeading), Heading)
  {
    assert Upper(NoHeading)[..|Heading|] == Heading;
    assert OccursAt(Upper(NoHeading), Heading, 0);
    ContainsIff(Upper(NoHeading), Heading);
  }

  /** A text upper-cased contains what the upper-cased text of any of its beginnings does. */
  lemma UpperPrefix(t: string, r: string)
    requires |t| <= |r| && r[..|t|] == t && Contains(Upper(t), Heading)
    ensures Contains(Upper(r), Heading)
  {
    ContainsIff(Upper(t), Heading);
    var k :| OccursAt(Upper(t), Heading, k);
    assert Upper(r)[k..k + |Heading|] == Upper(t)[k..k + |Heading|];
    assert OccursAt(Upper(r), Heading, k);
    ContainsIff(Upper(r), Heading);
  }

  /** `os.path.splitext(pdf_file)[0] + ".txt"`. */
  function TextFileName(pdfFile: string): string
  {
    Stem(pdfFile) + ".txt"
  }

  /** What the text file of a report holds, readable or not. */
  function Content(pdf: Option<Pages>): string
  {
    match pdf
    case None => ExtractError
    case Some(pages) => ReportText(pages)
  }

  /** The text files written for the reports `pdfs`, in order: a later report with the same
      stem overwrites an earlier one. */
  function Written(pdfs: seq<(string, Option<Pages>)>): map<string, string>
    decreases |pdfs|
  {
    if pdfs == [] then map[]
    else
      var last := pdfs[|pdfs| - 1];
      Written(pdfs[..|pdfs| - 1])[TextFileName(last.0) := Content(last.1)]
  }

  /** `process_all_pdfs` over the directory listing `files` (each name with its report):
      the output directory `dir` after the run. Files of `dir` that no report writes keep
      their contents. */
  method ProcessAllPdfs(files: seq<(string, Option<Pages>)>, dir: map<string, string>)
    returns (out: map<string, string>)
    ensures out == dir + Written(WithExtension(files, ".pdf"))
  {
    var pdfs := WithExtension(files, ".pdf");
    out := dir;
    assert pdfs[..0] == [];
    for i := 0 to |pdfs|
      invariant out == dir + Written(pdfs[..i])
    {
      var text: string;
      match pdfs[i].1 {
        case None =>
          text := ExtractError;
        case Some(pages) =>
          text := ExtractReportText(pages);
      }
      WrittenStep(pdfs, i);
      UnionUpdate(dir, Written(pdfs[..i]), TextFileName(pdfs[i].0), text);
      out := out[TextFileName(pdfs[i].0) := text];
    }
    assert pdfs[..|pdfs|] == pdfs;
  }

  /** Processing one more report writes its file. */
  lemma WrittenStep(pdfs: seq<(string, Option<Pages>)>, i: nat)
    requires i < |pdfs|
    ensures Written(pdfs[..i + 1]) == Written(pdfs[..i])[TextFileName(pdfs[i].0) := Content(pdfs[i].1)]
  {
    assert pdfs[..i + 1][..i] == pdfs[..i];
  }

  /** Writing a file over the union writes it over the right-hand side. */
  lemma UnionUpdate(dir: map<string, string>, w: map<string, string>, name: string, text: string)
    ensures (dir + w)[name := text] == dir + w[name := text]
  {
  }

  /** One file per report's stem. */
  lemma {:induction false} WrittenNames(pdfs: seq<(string, Option<Pages>)>)
    ensures forall name :: name in Written(pdfs) <==> exists i | 0 <= i < |pdfs| :: TextFileName(pdfs[i].0) == name
    decreases |pdfs|
  {
    if pdfs != [] {
      var init := pdfs[..|pdfs| - 1];
      WrittenNames(init);
      assert forall i | 0 <= i < |init| :: init[i] == pdfs[i];
    }
  }

  /** Each file holds what the last report with its stem yields. */
  lemma {:induction false} WrittenLast(pdfs: seq<(string, Option<Pages>)>, i: nat)
    requires i < |pdfs| && forall j | i < j < |pdfs| :: TextFileName(pdfs[j].0) != TextFileName(pdfs[i].0)
    ensures TextFileName(pdfs[i].0) in Written(pdfs) && Written(pdfs)[TextFileName(pdfs[i].0)] == Content(pdfs[i].1)
    decreases |pdfs|
  {
    if i < |pdfs| - 1 {
      var init := pdfs[..|pdfs| - 1];
      assert init[i] == pdfs[i];
      forall j | i < j < |init| ensures TextFileName(init[j].0) != TextFileName(init[i].0) {
        assert init[j] == pdfs[j];
      }
      WrittenLast(init, i);
    }
  }
}
