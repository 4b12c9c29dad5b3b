/** The search overlay: the term gate, the paragraph scan over the page's
    sections, the excerpt cut around the first match, and the summary line
    of the result panel. */
module Search {
  import opened Common

  /** Shortest term that is searched for. */
  const MinTermLength := 2
  /** Longest paragraph used whole as its excerpt. */
  const ShortExcerpt := 150
  /** Characters kept on each side of the match in a long paragraph. */
  const Context := 50

  // ---------------------------------------------------------------- the term

  /** The settled input's term: lower-cased, then trimmed; `None` when it
      is shorter than two characters and a prompt is shown instead. */
  function SearchTerm(value: string): (r: Option<string>)
    ensures r.Some? <==> |JsTrim(Lower(value))| >= MinTermLength
    ensures r.Some? ==> r.value == JsTrim(Lower(value))
  {
    var term := JsTrim(Lower(value));
    if |term| < MinTermLength then None else Some(term)
  }

  /** A term that passes the gate has no upper-case letter and no space at
      either end. */
  lemma SearchTermIsNormal(value: string)
    requires SearchTerm(value).Some?
    ensures var t := SearchTerm(value).value;
            |t| >= 2 && !IsJsSpace(t[0]) && !IsJsSpace(t[|t| - 1])
            && forall i :: 0 <= i < |t| ==> !IsAsciiUpper(t[i])
  {
    TrimEdges(Lower(value), IsJsSpace);
    TrimKeepsNoUpper(Lower(value));
  }

  lemma TrimKeepsNoUpper(low: string)
    requires forall i :: 0 <= i < |low| ==> !IsAsciiUpper(low[i])
    ensures var t := JsTrim(low); forall i :: 0 <= i < |t| ==> !IsAsciiUpper(t[i])
  {
    TrimIsSlice(low, IsJsSpace);
    var t := JsTrim(low);
    var a := LeadingCount(low, IsJsSpace);
    assert forall i :: 0 <= i < |t| ==> t[i] == low[a + i];
  }

  // ---------------------------------------------------------------- the excerpt

  /** The cut `[start, end)` around a match of length `tlen` at `i`: fifty
      characters of context on each side, clipped to the paragraph. */
  function Window(len: nat, i: nat, tlen: nat): (w: (nat, nat))
    requires i + tlen <= len
    ensures w.0 <= i && i + tlen <= w.1 <= len
    ensures w.0 == 0 || w.0 == i - Context
    ensures w.1 == len || w.1 == i + tlen + Context
    ensures i >= Context ==> w.0 == i - Context
    ensures i + tlen + Context <= len ==> w.1 == i + tlen + Context
    ensures w.1 - w.0 <= tlen + 2 * Context
  {
    (if i >= Context then i - Context else 0,
     if i + tlen + Context <= len then i + tlen + Context else len)
  }

  function Ellipsis(b: bool): string { if b then "..." else "" }

  /** The excerpt of a matching paragraph: the whole text when it is short,
      otherwise the window around the first match with `...` on each side
      that was cut. */
  function Excerpt(text: string, term: string): (r: string)
    requires Contains(Lower(text), term)
    ensures |text| <= ShortExcerpt ==> r == text
    ensures |text| > ShortExcerpt ==> |r| <= |term| + 2 * Context + 6
  {
    if |text| <= ShortExcerpt then text
    else
      IndexOfSpec(Lower(text), term);
      var i := IndexOf(Lower(text), term);
      var w := Window(|text|, i, |term|);
      Ellipsis(w.0 > 0) + text[w.0..w.1] + Ellipsis(w.1 < |text|)
  }

  /** A match survives being cut out with some text around it. */
  lemma CutKeepsMatch(text: string, term: string, i: nat, a: nat, b: nat, pre: string, post: string)
    requires OccursAt(Lower(text), term, i) && a <= i && i + |term| <= b <= |text|
    ensures OccursAt(Lower(pre + text[a..b] + post), term, |pre| + i - a)
  {
    var r := pre + text[a..b] + post;
    var at := |pre| + i - a;
    forall k | 0 <= k < |term| ensures Lower(r)[at + k] == term[k] {
      assert r[at + k] == text[i + k];
      assert Lower(text)[i..i + |term|][k] == Lower(text)[i + k];
    }
    assert Lower(r)[at..at + |term|] == term;
  }

  /** The excerpt still shows the term: its lower-cased text contains it. */
  lemma ExcerptShowsTerm(text: string, term: string)
    requires Contains(Lower(text), term)
    ensures Contains(Lower(Excerpt(text, term)), term)
  {
    if |text| > ShortExcerpt {
      IndexOfSpec(Lower(text), term);
      var i := IndexOf(Lower(text), term);
      var w := Window(|text|, i, |term|);
      CutKeepsMatch(text, term, i, w.0, w.1, Ellipsis(w.0 > 0), Ellipsis(w.1 < |text|));
    }
  }

  /** A long paragraph's excerpt opens with `...` exactly when the window
      does not start at the paragraph's start. */
  lemma ExcerptMarksCut(text: string, term: string)
    requires Contains(Lower(text), term) && |text| > ShortExcerpt
    ensures IndexOf(Lower(text), term) >= 0
    ensures var w := Window(|text|, IndexOf(Lower(text), term), |term|);
            Excerpt(text, term)[..|Ellipsis(w.0 > 0)|] == Ellipsis(w.0 > 0)
            && (w.0 > 0 <==> IndexOf(Lower(text), term) > Context)
            && (w.1 < |text| <==> IndexOf(Lower(text), term) + |term| + Context < |text|)
  {
    IndexOfSpec(Lower(text), term);
  }

  // ---------------------------------------------------------------- the scan

  /** A `section[id]` of the main element: its id, the text of its `h2` if
      it has one, and the text of its paragraphs in document order. */
  datatype Section = Section(id: string, heading: Option<string>, paragraphs: seq<string>)

  /** The section's title: its `h2` text, or its id when it has none. */
  function Title(sec: Section): string
  {
    match sec.heading
    case Some(h) => h
    case None => sec.id
  }

  /** One result: where it was found and its excerpt. */
  datatype Hit = Hit(sectionId: string, sectionTitle: string, excerpt: string)

  /** A paragraph matches when its lower-cased text contains the term. */
  predicate Matches(p: string, term: string)
  {
    Contains(Lower(p), term)
  }

  function HitFor(sec: Section, p: string, term: string): Hit
    requires Matches(p, term)
  {
    Hit(sec.id, Title(sec), Excerpt(p, term))
  }

  /** The results of one section's paragraphs `ps`, in paragraph order. */
  function ParagraphHits(sec: Section, ps: seq<string>, term: string): (r: seq<Hit>)
    ensures |r| <= |ps|
  {
    if ps == [] then []
    else
      var p := ps[|ps| - 1];
      ParagraphHits(sec, ps[..|ps| - 1], term) + if Matches(p, term) then [HitFor(sec, p, term)] else []
  }

  /** The results of the sections, section by section. */
  function Results(secs: seq<Section>, term: string): seq<Hit>
  {
    if secs == [] then []
    else
      var sec := secs[|secs| - 1];
      Results(secs[..|secs| - 1], term) + ParagraphHits(sec, sec.paragraphs, term)
  }

  /** Every matching paragraph gives a result. */
  lemma {:induction false} HitsComplete(sec: Section, ps: seq<string>, term: string, p: string)
    requires p in ps && Matches(p, term)
    ensures HitFor(sec, p, term) in ParagraphHits(sec, ps, term)
  {
    var init := ps[..|ps| - 1];
    if p != ps[|ps| - 1] {
      assert p in init by {
        var k :| 0 <= k < |ps| && ps[k] == p;
        assert k < |init| && init[k] == p;
      }
      HitsComplete(sec, init, term, p);
    }
  }

  /** Every result comes from a matching paragraph. */
  lemma {:induction false} HitsSound(sec: Section, ps: seq<string>, term: string, h: Hit)
    requires h in ParagraphHits(sec, ps, term)
    ensures exists p :: p in ps && Matches(p, term) && h == HitFor(sec, p, term)
  {
    var init := ps[..|ps| - 1];
    var last := ps[|ps| - 1];
    if h in ParagraphHits(sec, init, term) {
      HitsSound(sec, init, term, h);
      var p :| p in init && Matches(p, term) && h == HitFor(sec, p, term);
      var k :| 0 <= k < |init| && init[k] == p;
      assert ps[k] == p;
    } else {
      assert Matches(last, term) && h == HitFor(sec, last, term);
    }
  }

  /** Results of earlier paragraphs come first. */
  lemma {:induction false} ParagraphHitsAppend(sec: Section, a: seq<string>, b: seq<string>, term: string)
    ensures ParagraphHits(sec, a + b, term) == ParagraphHits(sec, a, term) + ParagraphHits(sec, b, term)
  {
    if b != [] {
      var ab := a + b;
      assert ab[..|ab| - 1] == a + b[..|b| - 1];
      assert ab[|ab| - 1] == b[|b| - 1];
      ParagraphHitsAppend(sec, a, b[..|b| - 1], term);
    } else {
      assert a + b == a;
    }
  }

  /** Results of earlier sections come first. */
  lemma {:induction false} ResultsAppend(a: seq<Section>, b: seq<Section>, term: string)
    ensures Results(a + b, term) == Results(a, term) + Results(b, term)
  {
    if b != [] {
      var ab := a + b;
      assert ab[..|ab| - 1] == a + b[..|b| - 1];
      assert ab[|ab| - 1] == b[|b| - 1];
      ResultsAppend(a, b[..|b| - 1], term);
    } else {
      assert a + b == a;
    }
  }

  // ---------------------------------------------------------------- the panel

  /** What the result panel shows. */
  datatype Panel =
    | Prompt          // "Enter a search term above ..."
    | TooShort        // "Please enter at least 2 characters ..."
    | Loading         // the spinner shown while the input settles
    | Unavailable     // "Search functionality is not available."
    | NoResults       // "No matching results found."
    | Found(hits: seq<Hit>)

  /** The panel `performSearch` fills in: `None` for `main` stands for a
      page with no `main` element. `valid` says whether the term compiles
      as a regular expression: the highlight of the first match calls
      `new RegExp(term, 'gi')`, which throws on a term such as `c++`, so
      that no panel is filled in at all (`None`). */
  function Outcome(main: Option<seq<Section>>, term: string, valid: bool): Option<Panel>
  {
    match main
    case None => Some(Unavailable)
    case Some(secs) =>
      var hits := Results(secs, term);
      if |hits| == 0 then Some(NoResults)
      else if valid then Some(Found(hits))
      else None
  }

  /** A matching paragraph in any section gives a result, so the search
      reaches the highlight step. */
  lemma MatchGivesResult(secs: seq<Section>, term: string, i: nat, p: string)
    requires i < |secs| && p in secs[i].paragraphs && Matches(p, term)
    ensures |Results(secs, term)| > 0
  {
    ResultsAppend(secs[..i + 1], secs[i + 1..], term);
    assert secs[..i + 1] + secs[i + 1..] == secs;
    assert secs[..i + 1][..i] == secs[..i];
    HitsComplete(secs[i], secs[i].paragraphs, term, p);
  }

  /** The summary line above the results. */
  function Summary(n: nat): string
  {
    "Found " + NatToString(n) + " result" + (if n != 1 then "s" else "") + ":"
  }

  /** The summary gives the count in decimal, and says `results` unless
      there is exactly one. */
  lemma SummaryPlural(n: nat)
    ensures StartsWith(Summary(n), "Found " + NatToString(n) + " result")
    ensures EndsWith(Summary(n), "results:") <==> n != 1
  {
    var head := "Found " + NatToString(n) + " result";
    var s := Summary(n);
    assert head[|head| - 7..] == " result";
    if n == 1 {
      assert s == head + ":";
      assert s[|s| - 8..][0] == head[|head| - 7] == ' ';
    } else {
      assert s == head + "s:";
      assert s[|s| - 8..] == head[|head| - 6..] + "s:";
    }
  }

  /** `performSearch`: scans each section's paragraphs in order, pushing a
      result for each match; the first match of a term that is not a valid
      regular expression throws (`None`). */
  method PerformSearch(main: Option<seq<Section>>, term: string, valid: bool) returns (panel: Option<Panel>)
    ensures panel == Outcome(main, term, valid)
  {
    if main.None? {
      return Some(Unavailable);
    }
    var secs := main.value;
    var results: seq<Hit> := [];
    var i := 0;
    while i < |secs|
      invariant 0 <= i <= |secs|
      invariant results == Results(secs[..i], term)
      invariant !valid ==> results == []
    {
      var sec := secs[i];
      var k := 0;
      while k < |sec.paragraphs|
        invariant 0 <= k <= |sec.paragraphs|
        invariant results == Results(secs[..i], term) + ParagraphHits(sec, sec.paragraphs[..k], term)
        invariant !valid ==> results == []
      {
        var p := sec.paragraphs[k];
        assert sec.paragraphs[..k + 1][..k] == sec.paragraphs[..k];
        if Contains(Lower(p), term) {
          if !valid {
            MatchGivesResult(secs, term, i, p);
            return None;
          }
          results := results + [Hit(sec.id, Title(sec), Excerpt(p, term))];
        }
        k := k + 1;
      }
      assert sec.paragraphs[..k] == sec.paragraphs;
      assert secs[..i + 1][..i] == secs[..i];
      i := i + 1;
    }
    assert secs[..i] == secs;
    if |results| > 0 {
      panel := Some(Found(results));
    } else {
      panel := Some(NoResults);
    }
  }

  /** The overlay and its result panel. */
  class Overlay {
    var hidden: bool
    var input: string
    var panel: Panel

    constructor ()
      ensures hidden && input == "" && panel == Prompt
    {
      hidden, input, panel := true, "", Prompt;
    }

    /** The search toggle: shows the overlay with an empty input and the prompt. */
    method Open()
      modifies this
      ensures !hidden && input == "" && panel == Prompt
    {
      hidden, input, panel := false, "", Prompt;
    }

    /** The close button. */
    method Close()
      modifies this
      ensures hidden && input == old(input) && panel == old(panel)
    {
      hidden := true;
    }

    /** A key press: Escape hides an open overlay; nothing else changes. */
    method KeyDown(key: string)
      modifies this
      ensures hidden == (old(hidden) || key == "Escape")
      ensures input == old(input) && panel == old(panel)
    {
      if key == "Escape" && !hidden {
        hidden := true;
      }
    }

    /** Typing: the new value is kept and the spinner shown until it settles. */
    method Type(value: string)
      modifies this
      ensures input == value && panel == Loading && hidden == old(hidden)
    {
      input, panel := value, Loading;
    }

    /** The debounced callback: too short a term shows the reminder,
        otherwise the page is searched; `valid` says whether the term
        compiles as a regular expression. When the search throws, the
        panel keeps what it showed. */
    method Settle(main: Option<seq<Section>>, valid: bool)
      modifies this
      ensures input == old(input) && hidden == old(hidden)
      ensures panel == match SearchTerm(input)
                       case None => TooShort
                       case Some(t) => match Outcome(main, t, valid)
                                       case None => old(panel)
                                       case Some(q) => q
    {
      var term := SearchTerm(input);
      if term.None? {
        panel := TooShort;
      } else {
        var outcome := PerformSearch(main, term.value, valid);
        if outcome.Some? {
          panel := outcome.value;
        }
      }
    }
  }

  /** Typing a term that is not a valid regular expression and matches some
      paragraph leaves the spinner on the panel after the callback. */
  method TypeInvalid(o: Overlay, value: string, main: Option<seq<Section>>, i: nat, p: string)
    requires SearchTerm(value).Some? && main.Some?
    requires i < |main.value| && p in main.value[i].paragraphs && Matches(p, SearchTerm(value).value)
    modifies o
    ensures o.panel == Loading && o.input == value
  {
    o.Type(value);
    o.Settle(main, false);
    MatchGivesResult(main.value, SearchTerm(value).value, i, p);
  }
}
