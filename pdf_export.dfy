/** The PDF report: the text pulled out of each dashboard section, the
    report's section layout with its fallback texts, and the export
    button's busy state around the generation. */
module PdfExport {
  import opened Common

  // ---------------------------------------------------------------- section text

  /** A `<p>` of a section: its text content, and the classes carried by
      it and by every element that encloses it. */
  datatype Paragraph = Paragraph(text: string, within: set<string>)

  /** The page: each section id with its paragraphs in document order. */
  type Page = map<string, seq<Paragraph>>

  /** Paragraphs that are, or sit inside, a card, a chart container or a
      gallery item belong to the interface and are left out. */
  predicate Skipped(p: Paragraph)
  {
    "card" in p.within || "chart-container" in p.within || "gallery-item" in p.within
  }

  /** What one paragraph adds to the collected text. */
  function Piece(p: Paragraph): string
  {
    if Skipped(p) then "" else p.text + "\n\n"
  }

  /** The collected text of a run of paragraphs, before trimming. */
  function Joined(ps: seq<Paragraph>): string
  {
    if ps == [] then "" else Joined(ps[..|ps| - 1]) + Piece(ps[|ps| - 1])
  }

  /** The text of a section for the report: empty when there is no such
      section, otherwise its collected text trimmed. */
  function TextContent(page: Page, id: string): string
  {
    if id in page then JsTrim(Joined(page[id])) else ""
  }

  /** `getTextContent`: the loop over the section's paragraphs. */
  method GetTextContent(page: Page, id: string) returns (r: string)
    ensures r == TextContent(page, id)
    ensures id !in page ==> r == ""
  {
    if id !in page {
      return "";
    }
    var ps := page[id];
    var content := "";
    var i := 0;
    while i < |ps|
      invariant 0 <= i <= |ps|
      invariant content == Joined(ps[..i])
    {
      var p := ps[i];
      assert ps[..i + 1][..i] == ps[..i];
      if !Skipped(p) {
        content := content + p.text + "\n\n";
      }
      i := i + 1;
    }
    assert ps[..|ps|] == ps;
    r := JsTrim(content);
  }

  /** The paragraphs that are not skipped, in order. */
  function Kept(ps: seq<Paragraph>): (r: seq<Paragraph>)
    ensures |r| <= |ps|
  {
    if ps == [] then []
    else Kept(ps[..|ps| - 1]) + (if Skipped(ps[|ps| - 1]) then [] else [ps[|ps| - 1]])
  }

  /** Each paragraph's text followed by a blank line. */
  function Blocks(ps: seq<Paragraph>): string
  {
    if ps == [] then "" else Blocks(ps[..|ps| - 1]) + ps[|ps| - 1].text + "\n\n"
  }

  /** `Kept` keeps exactly the paragraphs that are not skipped. */
  lemma {:induction false} KeptSpec(ps: seq<Paragraph>)
    ensures forall p :: p in Kept(ps) <==> p in ps && !Skipped(p)
  {
    if ps != [] {
      var init, last := ps[..|ps| - 1], ps[|ps| - 1];
      KeptSpec(init);
      assert ps == init + [last];
    }
  }

  /** The collected text is the kept paragraphs, each followed by a blank
      line: skipped paragraphs contribute nothing. */
  lemma {:induction false} JoinedIsBlocksOfKept(ps: seq<Paragraph>)
    ensures Joined(ps) == Blocks(Kept(ps))
  {
    if ps != [] {
      var init, last := ps[..|ps| - 1], ps[|ps| - 1];
      JoinedIsBlocksOfKept(init);
      if !Skipped(last) {
        var k := Kept(init) + [last];
        assert k[..|k| - 1] == Kept(init);
        assert Joined(ps) == Blocks(Kept(init)) + (last.text + "\n\n");
      } else {
        assert Kept(ps) == Kept(init);
      }
    }
  }

  /** A section's report text is empty exactly when the section is missing
      or its kept paragraphs hold nothing but spaces. */
  lemma TextContentEmpty(page: Page, id: string)
    ensures TextContent(page, id) == "" <==>
      id !in page || AllSpace(Blocks(Kept(page[id])), IsJsSpace)
  {
    if id in page {
      JoinedIsBlocksOfKept(page[id]);
      TrimEmpty(Joined(page[id]), IsJsSpace);
    }
  }

  /** The report text of a section never starts or ends with a space. */
  lemma TextContentTrimmed(page: Page, id: string)
    ensures var t := TextContent(page, id);
            t == [] || (!IsJsSpace(t[0]) && !IsJsSpace(t[|t| - 1]))
  {
    if id in page {
      TrimEdges(Joined(page[id]), IsJsSpace);
    }
  }

  // ---------------------------------------------------------------- the report

  /** A paragraph of the report definition. */
  datatype Block = Block(text: string, style: string, pageBreakBefore: bool)

  /** A report section: the page section its text comes from, its heading
      and the text used when the page section yields none. */
  datatype Section = Section(id: string, heading: string, fallback: string)

  const ReportSections: seq<Section> := [
    Section("overview", "Introduction",
      "This interactive dashboard presents the key findings from a thesis on AUB, "
      + "exploring the spectrum of endometrial changes and their correlation with "
      + "patient data to provide a comprehensive diagnostic overview."),
    Section("demographics", "Demographics",
      "Analysis of patient demographics including age distribution, parity, "
      + "presenting complaints, and drug history."),
    Section("findings", "Histopathological Findings",
      "Analysis of histopathological patterns observed in the study, including "
      + "their distribution and characteristics."),
    Section("correlations", "Statistical Correlations",
      "Examination of relationships between histopathological findings and "
      + "patient parameters."),
    Section("discussion", "Discussion",
      "Discussion of the findings and their implications for clinical practice "
      + "and research."),
    Section("conclusion", "Conclusion",
      "Summary of key findings and recommendations based on the research.")
  ]

  /** JavaScript's `text || fallback` on strings: the fallback replaces the
      empty string only. */
  function OrElse(text: string, fallback: string): (r: string)
    ensures text == "" ==> r == fallback
    ensures text != "" ==> r == text
  {
    if text == "" then fallback else text
  }

  /** The heading and body of report section `k`; every section but the
      first starts a new page. */
  function SectionBlocks(page: Page, k: nat): seq<Block>
    requires k < |ReportSections|
  {
    var s := ReportSections[k];
    [Block(s.heading, "sectionHeader", k > 0),
     Block(OrElse(TextContent(page, s.id), s.fallback), "paragraph", false)]
  }

  function AllSections(page: Page, n: nat): seq<Block>
    requires n <= |ReportSections|
  {
    if n == 0 then [] else AllSections(page, n - 1) + SectionBlocks(page, n - 1)
  }

  /** The report's content: the title, the date line, then the six
      sections. The date is supplied by the caller. */
  function Content(page: Page, date: string): seq<Block>
  {
    [Block("Histopathological Patterns in Abnormal Uterine Bleeding (AUB)", "header", false),
     Block(date, "", false)]
    + AllSections(page, |ReportSections|)
  }

  lemma {:induction false} AllSectionsAt(page: Page, n: nat)
    requires n <= |ReportSections|
    ensures |AllSections(page, n)| == 2 * n
    ensures forall k :: 0 <= k < n ==>
      AllSections(page, n)[2 * k] == SectionBlocks(page, k)[0]
      && AllSections(page, n)[2 * k + 1] == SectionBlocks(page, k)[1]
  {
    if n > 0 {
      AllSectionsAt(page, n - 1);
    }
  }

  /** Where each section's blocks sit in the report. */
  lemma ContentAt(page: Page, date: string)
    ensures var c := Content(page, date);
      |c| == 2 + 2 * |ReportSections|
      && forall k :: 0 <= k < |ReportSections| ==>
           c[2 + 2 * k] == SectionBlocks(page, k)[0] && c[3 + 2 * k] == SectionBlocks(page, k)[1]
  {
    AllSectionsAt(page, |ReportSections|);
  }

  /** Every block after the title and the date in an odd place is a body. */
  lemma BodiesAtOddPlaces(page: Page, date: string)
    ensures var c := Content(page, date);
      forall i :: 3 <= i < |c| && i % 2 == 1 ==> c[i].style == "paragraph"
  {
    var c := Content(page, date);
    ContentAt(page, date);
    forall i | 3 <= i < |c| && i % 2 == 1
      ensures c[i].style == "paragraph"
    {
      var k := (i - 3) / 2;
      assert c[3 + 2 * k] == SectionBlocks(page, k)[1];
    }
  }

  /** The layout of the report: a heading and a body per section after the
      title and the date; the headings are the six section headers, each
      but the first (the Introduction) starting a new page; a body is the
      section's fallback text exactly when the page gives no text for it. */
  lemma ContentLayout(page: Page, date: string)
    ensures |ReportSections| == 6 && ReportSections[0].heading == "Introduction"
    ensures var c := Content(page, date);
      |c| == 14
      && (forall k :: 0 <= k < |ReportSections| ==>
            c[2 + 2 * k].text == ReportSections[k].heading
            && c[2 + 2 * k].style == "sectionHeader"
            && (c[2 + 2 * k].pageBreakBefore <==> k > 0)
            && c[3 + 2 * k].style == "paragraph"
            && c[3 + 2 * k].text == OrElse(TextContent(page, ReportSections[k].id), ReportSections[k].fallback))
      && forall i :: 0 <= i < |c| && c[i].style == "sectionHeader" ==> 2 <= i && i % 2 == 0
  {
    var c := Content(page, date);
    ContentAt(page, date);
    BodiesAtOddPlaces(page, date);
    forall k | 0 <= k < |ReportSections|
      ensures c[2 + 2 * k].text == ReportSections[k].heading
              && c[2 + 2 * k].style == "sectionHeader"
              && (c[2 + 2 * k].pageBreakBefore <==> k > 0)
              && c[3 + 2 * k].style == "paragraph"
              && c[3 + 2 * k].text == OrElse(TextContent(page, ReportSections[k].id), ReportSections[k].fallback)
    {
      var b := SectionBlocks(page, k);
      assert c[2 + 2 * k] == b[0] && c[3 + 2 * k] == b[1];
    }
  }

  // ---------------------------------------------------------------- the button

  /** The spinner shown while the report is generated. */
  const Spinner := "<i class=\"fas fa-spinner fa-spin\"></i>"

  /** What the generation did: the report was handed to the library for
      download, or it failed and an alert was shown. */
  datatype Outcome = Downloaded(content: seq<Block>) | Alerted

  /** The export button with the state its click handler keeps: the markup
      saved at the click, which the callback puts back. */
  class ExportButton {
    var html: string
    var disabled: bool
    /** The markup saved by the last click, while its timer is pending. */
    var saved: Option<string>

    constructor (html: string)
      ensures this.html == html && !disabled && saved == None
    {
      this.html := html;
      disabled := false;
      saved := None;
    }

    /** A click saves the current markup, shows the spinner and disables
        the button until the generation is done. A disabled button
        receives no click, so a click while the timer is pending changes
        nothing. */
    method Click()
      modifies this
      ensures !old(disabled) ==> html == Spinner && disabled && saved == Some(old(html))
      ensures old(disabled) ==> unchanged(this)
    {
      if disabled {
        return;
      }
      saved := Some(html);
      html := Spinner;
      disabled := true;
    }

    /** The timer set by the click: the report is generated, or the
        library fails (`fails`), and on either path the callback restores
        the saved markup and enables the button. */
    method Generate(page: Page, date: string, fails: bool) returns (outcome: Outcome)
      requires saved.Some?
      modifies this
      ensures html == old(saved.value) && !disabled && saved == None
      ensures fails <==> outcome == Alerted
      ensures !fails ==> outcome == Downloaded(Content(page, date))
    {
      if fails {
        outcome := Alerted;
      } else {
        outcome := Downloaded(Content(page, date));
      }
      html := saved.value;
      disabled := false;
      saved := None;
    }
  }

  /** The whole click handler with its timer: the button ends as it was
      before the click, whether or not the generation failed. */
  method Export(button: ExportButton, page: Page, date: string, fails: bool)
    returns (outcome: Outcome)
    requires !button.disabled
    modifies button
    ensures button.html == old(button.html) && !button.disabled
    ensures fails <==> outcome == Alerted
  {
    button.Click();
    outcome := button.Generate(page, date, fails);
  }
}
