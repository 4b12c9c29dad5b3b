# Thesis dashboard, modelled in Dafny

The repository is a static dashboard for a thesis on abnormal uterine
bleeding, served by two small Python development servers, plus a
script that builds a passage index of the manuscript for search. This
project models the parts of it whose behaviour can be stated exactly:

- **ThesisText** and **ThesisIndex** (`scripts/build_thesis_index.py`):
  - the tokenizer with its stop words;
  - the paragraph splitter and its five-word filter;
  - the heading detector;
  - the counting loops of `build_documents`: term counts, document frequency and passage ids;
  - the file filter and the `meta` block.
- **KnowledgeGraph** (`dashboard/js/knowledge-graph.js`): a class over
  arrays of node records. It covers:
  - building nodes and resolving edges;
  - the hover connected set and the two edge passes;
  - clearing highlights;
  - the pair structure of the force passes, over abstract force functions;
  - the boundary clamp.
- **ContentViewer** (`dashboard/js/content-viewer.js`):
  - HTML escaping, with its `>` quirk;
  - chapter-name prettifying;
  - heading slugs and anchors;
  - previous/next chapter links;
  - the fenced-code and heading rules of the markdown renderer;
  - the navigation list's filter and active marking.
- **Search** (`dashboard/js/search.js`): the term gate, matching, the
  excerpt window with its ellipses, the result summary, and the overlay.
- **Gallery** (`dashboard/js/gallery.js`): the filter buttons, and the
  image modal's zoom, drag and open/close state.
- **PdfExport** (`dashboard/js/pdf-export.js`):
  - section text extraction;
  - the report layout with its fallback texts;
  - the export button's disable/restore cycle.
- **PathCorrection** and **VisualizationFallback**
  (`dashboard/js/path-correction.js`, `dashboard/js/visualization-fallback.js`):
  - the `/figures/` rewrite;
  - the static-image fallback chain;
  - the error/retry handling of an embedded visualisation.
- **Correlations** and **DirectTabs** (`dashboard/js/correlations.js`,
  `dashboard/js/direct-tab-functionality.js`): the tab switch and the figure tooltip.
- **Theme** and **MainPage** (`dashboard/js/theme.js`, `dashboard/js/main.js`):
  - the theme toggle and `applyTheme`;
  - the initial theme;
  - scroll-based selection of the active navigation link;
  - the mobile menu.
- **DevServer** and **EnhancedServer** (`start_dashboard_server.py`,
  `enhanced_server.py`): MIME type selection, the CORS headers, and the
  root and index-file rewriting of `do_GET`.
- **Common**: text helpers shared by the modules:
  - ASCII lower-casing;
  - JavaScript `trim` and Python `strip`;
  - substring search;
  - decimal rendering of naturals;
  - `Option`.

How each kind of source code is modelled:

- **DOM state is class fields.** State that the scripts keep in the DOM
  or in closure variables becomes class fields that the methods update
  in place: a class list is a `set<string>`, a missing attribute is
  `None`.
- **Pure helpers are functions.** Pure string and arithmetic helpers
  become functions, proved against reference definitions or inverses.
- **Loops are methods.** The source's loops become methods with loop
  invariants, proved against those functions.
- **Quirks are modelled as written**, each with a lemma that exhibits it:
  - `>` escapes to `undefined`;
  - edge endpoints that do not resolve;
  - the section looked up by paragraph index rather than line position;
  - a bare `#` link marked when no section is read;
  - a second fallback inserted for the same iframe.

## Model

| member | source | states |
|---|---|---|
| ThesisText.Tokenize | scripts/build_thesis_index.py:79-81 | every token is lower-case ASCII letters, longer than two and not a stop word |
| ThesisText.TokenizeMembers | scripts/build_thesis_index.py:58 | a word is a token iff some maximal letter run of the text spells it (ignoring case) and it is token-shaped |
| ThesisText.TokenizeSound | scripts/build_thesis_index.py:79-81 | each token is the lower-cased text of a maximal letter run |
| ThesisText.TokenizeComplete | scripts/build_thesis_index.py:79-81 | no token-shaped letter run is dropped |
| ThesisText.TokenizeIsTokensOfRuns | scripts/build_thesis_index.py:79-81 | the tokens are the token-shaped maximal letter runs, lower-cased, in text order and once per run |
| ThesisText.KeepMatchesIsTokensOf | scripts/build_thesis_index.py:80-81 | the two-letter minimum of the pattern and the later filter together keep exactly the token-shaped runs, in order |
| ThesisText.TokensOfAppend | scripts/build_thesis_index.py:80-81 | the tokens of consecutive runs follow one another |
| ThesisText.KeepTokensSpec | scripts/build_thesis_index.py:81 | the kept matches are exactly the lower-cased, long-enough non-stop-words |
| ThesisText.LetterRuns | scripts/build_thesis_index.py:58 | the runs are maximal letter runs, disjoint and in text order |
| ThesisText.LetterRunsComplete | scripts/build_thesis_index.py:58 | every letter of the text lies in one of the runs |
| ThesisText.RegexMatches | scripts/build_thesis_index.py:58 | the matches of `[A-Za-z]{2,}` are exactly the runs of two letters or more |
| ThesisText.ListedIn | scripts/build_thesis_index.py:54-56 | the stop-word scan is membership in the stop-word list |
| ThesisText.Paragraphs | scripts/build_thesis_index.py:83-87 | every paragraph is stripped, not empty, has no blank line and has at least five words |
| ThesisText.KeepParagraphsMembers | scripts/build_thesis_index.py:85-87 | the paragraphs kept are exactly the stripped non-empty pieces with five words or more |
| ThesisText.KeepParagraphsAppend | scripts/build_thesis_index.py:85-87 | the paragraphs of consecutive pieces follow one another, in piece order |
| ThesisText.KeepParagraphsOne | scripts/build_thesis_index.py:85-87 | one piece gives its stripped text, once, iff that is non-empty with five words or more |
| ThesisText.PieceTexts | scripts/build_thesis_index.py:85 | no piece of the split holds a blank line |
| ThesisText.Pieces | scripts/build_thesis_index.py:85 | the pieces cover the text from its start to its end |
| ThesisText.PiecesSeparated | scripts/build_thesis_index.py:85 | a `\n\s*\n` match lies between every two neighbouring pieces |
| ThesisText.PiecesClean | scripts/build_thesis_index.py:85 | no separator match starts inside a piece |
| ThesisText.SeparatorMatch | scripts/build_thesis_index.py:85 | what the scan takes as a separator is a match of `\n\s*\n` |
| ThesisText.StripNoBlankLine | scripts/build_thesis_index.py:86 | stripping a piece cannot create a blank line |
| ThesisText.SplitLines | scripts/build_thesis_index.py:121 | no line holds a line boundary |
| ThesisText.SplitLinesRoundTrip | scripts/build_thesis_index.py:121 | on `\n`-only text the lines, each followed by a newline, give the text back |
| ThesisText.DetectSection | scripts/build_thesis_index.py:89-94 | `None` iff no line starts with `#`; otherwise the stripped text of the last such line |
| ThesisText.LastHeading | scripts/build_thesis_index.py:90-93 | the backward scan finds the last heading line, or none when there is none |
| ThesisIndex.Suffix | scripts/build_thesis_index.py:108 | a suffix is empty or a dot followed by at least one non-dot character |
| ThesisIndex.StemSuffix | scripts/build_thesis_index.py:138 | the stem and the suffix make up the name |
| ThesisIndex.TallySpec | scripts/build_thesis_index.py:127-129 | a tally adds to each key its number of occurrences and has exactly the old keys and the counted elements |
| ThesisIndex.OrderSpec | scripts/build_thesis_index.py:127-129 | the key order lists each distinct token exactly once |
| ThesisIndex.CountsTotal | scripts/build_thesis_index.py:130-131 | the counts add up to the number of tokens |
| ThesisIndex.CountTerms | scripts/build_thesis_index.py:127-129 | the counting loop yields the tally of the tokens and their first-occurrence order |
| ThesisIndex.AddDocFreq | scripts/build_thesis_index.py:133-134 | the document-frequency loop adds one for each key of the passage |
| ThesisIndex.IdInjective | scripts/build_thesis_index.py:138 | two ids with the same stem are equal only for the same paragraph index |
| ThesisIndex.Passage | scripts/build_thesis_index.py:135-145 | a document carries its id, file, text and tokens, and counts its own tokens |
| ThesisIndex.PassageSection | scripts/build_thesis_index.py:135 | a section is found iff one of the first `idx + 1` lines is a heading line |
| ThesisIndex.LateHeadingMissed | scripts/build_thesis_index.py:135 | a paragraph below a heading that comes after line `idx` gets no section |
| ThesisIndex.TokensOfAreTokens | scripts/build_thesis_index.py:124 | every paragraph's tokens are tokens as `tokenize` emits them |
| ThesisIndex.PassagesSpec | scripts/build_thesis_index.py:123-126 | the documents are exactly those of the paragraphs with tokens |
| ThesisIndex.PassagesFrom | scripts/build_thesis_index.py:123-126 | each document comes from one paragraph that has tokens |
| ThesisIndex.PassagesHave | scripts/build_thesis_index.py:125-126 | every paragraph with tokens gives its document |
| ThesisIndex.PassagesIdsDistinct | scripts/build_thesis_index.py:123-126 | the ids of one file's documents are pairwise distinct, gaps allowed |
| ThesisIndex.FileDocuments | scripts/build_thesis_index.py:108-120 | only a readable file whose text is not blank gives documents |
| ThesisIndex.FileDocumentsFrom | scripts/build_thesis_index.py:108-120 | each document of an entry comes from that readable, non-blank file and counts its tokens |
| ThesisIndex.DocumentsFrom | scripts/build_thesis_index.py:105-145 | every document of a listing comes from one of its readable, non-blank files |
| ThesisIndex.OrderOnce | scripts/build_thesis_index.py:133 | a passage's key order holds each of its keys exactly once |
| ThesisIndex.DocFreqSpec | scripts/build_thesis_index.py:133-134 | `doc_freq[t]` is the number of documents containing `t`, at most their number |
| ThesisIndex.DocumentsDocFreq | scripts/build_thesis_index.py:133-134 | over a listing, `doc_freq[t]` counts the documents containing `t` and is at most `total_passages` |
| ThesisIndex.DocFreqPrefix | scripts/build_thesis_index.py:133-134 | later documents do not change the frequency over earlier ones |
| ThesisIndex.SortEntries | scripts/build_thesis_index.py:105 | the listing sorted by name is a permutation in increasing name order |
| ThesisIndex.SourceFiles | scripts/build_thesis_index.py:167 | the source list is sorted and holds exactly the files that gave a document |
| ThesisIndex.MakeDocument | scripts/build_thesis_index.py:127-145 | the document built for a paragraph is its passage: id `stem::idx`, file name, section of the lines up to idx, text, tokens and term counts |
| ThesisIndex.AddParagraph | scripts/build_thesis_index.py:124-145 | one inner-loop step appends the paragraph's document, if any, and keeps `doc_freq` in step |
| ThesisIndex.AddPassages | scripts/build_thesis_index.py:123-145 | the inner loop appends one document per paragraph with tokens and keeps `doc_freq` in step |
| ThesisIndex.AddFile | scripts/build_thesis_index.py:112-145 | a readable file appends its documents and keeps `doc_freq` in step |
| ThesisIndex.AddEntry | scripts/build_thesis_index.py:106-120 | an entry appends its documents, none when it is skipped |
| ThesisIndex.BuiltStep | scripts/build_thesis_index.py:123-145 | appending a paragraph's contribution keeps the inner-loop state |
| ThesisIndex.BuildDocuments | scripts/build_thesis_index.py:96-146 | the documents of the sorted listing, with `doc_freq` over them |
| ThesisIndex.IndexMeta | scripts/build_thesis_index.py:157-170 | `total_passages` is the number of documents, the source list is sorted and exact, and the stop-word count is the list's size |
| KnowledgeGraph.BuildNodes | dashboard/js/knowledge-graph.js:83-89 | each node keeps its id, label and group, takes its drawn position and starts with zero velocity |
| KnowledgeGraph.FindNode | dashboard/js/knowledge-graph.js:92-93 | the endpoint is the first node with that id, or undefined when none has it |
| KnowledgeGraph.ResolveEdges | dashboard/js/knowledge-graph.js:91-94 | each edge's endpoints are what `find` returns for its `from` and `to`, unvalidated |
| KnowledgeGraph.ResolvedEdgesInRange | dashboard/js/knowledge-graph.js:91-94 | every resolved endpoint indexes a node |
| KnowledgeGraph.StaticEdgesResolve | dashboard/js/knowledge-graph.js:7-28 | every edge of the built-in topology resolves to a node |
| KnowledgeGraph.ConnectedMembers | dashboard/js/knowledge-graph.js:256-265 | the connected set is the hovered node, the targets of its outgoing edges and the sources of its incoming ones |
| KnowledgeGraph.CollectConnected | dashboard/js/knowledge-graph.js:256-265 | the loop fills exactly the connected set |
| KnowledgeGraph.HoverPassesPartition | dashboard/js/knowledge-graph.js:281-300 | each edge is drawn in exactly one pass, highlighted iff both endpoints are connected |
| KnowledgeGraph.NeighbourEdgeHighlighted | dashboard/js/knowledge-graph.js:293-300 | an edge between two neighbours of the hovered node is highlighted |
| KnowledgeGraph.ChainScenario | dashboard/js/knowledge-graph.js:253-300 | on the chain A→B→C, hovering B connects all three nodes and hovering A connects only A and B |
| KnowledgeGraph.PushConserves | dashboard/js/knowledge-graph.js:173-176 | an equal-and-opposite update leaves the sum of velocities unchanged |
| KnowledgeGraph.ForcePassClosed | dashboard/js/knowledge-graph.js:154-178 | after the first pass each velocity has gained its pull, plus its repulsion as first of a pair, minus that as second |
| KnowledgeGraph.ForcePassMomentum | dashboard/js/knowledge-graph.js:161-177 | the repulsions of the pairs i < j cancel: the pass changes the velocity sum only by the centring pulls |
| KnowledgeGraph.SpringStepAt | dashboard/js/knowledge-graph.js:187-195 | one spring changes the source by its push and the target by the opposite |
| KnowledgeGraph.SpringClosed | dashboard/js/knowledge-graph.js:181-196 | after the springs each velocity has gained the push of every edge it is the source of, minus that of every edge it is the target of |
| KnowledgeGraph.SpringMomentum | dashboard/js/knowledge-graph.js:181-196 | the spring pass leaves the sum of velocities unchanged |
| KnowledgeGraph.TickMomentum | dashboard/js/knowledge-graph.js:152-196 | before the clamp a tick changes the velocity sum only by the centring pulls |
| KnowledgeGraph.Clamp | dashboard/js/knowledge-graph.js:207-208 | the result lies in [lo, hi] when lo ≤ hi and is pinned to lo otherwise; a value inside is kept |
| KnowledgeGraph.SettleAll | dashboard/js/knowledge-graph.js:199-209 | every node ends inside its margins, or pinned to them when the container is too small |
| KnowledgeGraph.Graph.constructor | dashboard/js/knowledge-graph.js:78-133 | `initializeGraph` builds nodes and edges from the topology, every label has only `graph-node`, nothing is drawn and no frame is scheduled yet |
| KnowledgeGraph.InitKnowledgeGraph | dashboard/js/knowledge-graph.js:51-65 | nothing happens when an element is missing; otherwise the graph is built and the first tick runs: settled nodes, the plain frame and a scheduled frame when every edge resolves, else the tick stops at the first unresolved edge with no frame scheduled |
| KnowledgeGraph.Graph.Reinitialize | dashboard/js/knowledge-graph.js:78-94 | a rebuild cancels the frame and rebuilds nodes, edges and labels from scratch |
| KnowledgeGraph.Graph.Resize | dashboard/js/knowledge-graph.js:68-72 | a resize rebuilds the graph for the new size and runs a first tick, with the same outcome as on load |
| KnowledgeGraph.Graph.ForcePass | dashboard/js/knowledge-graph.js:154-178 | the first pass updates velocities as the closed form says and moves no node |
| KnowledgeGraph.Graph.ForceRow | dashboard/js/knowledge-graph.js:155-177 | row i applies its pull and then the pairs (i, j), j > i, in order |
| KnowledgeGraph.Graph.PullNode | dashboard/js/knowledge-graph.js:156-159 | node i's velocity gains the centring pull of its own position; every other node is unchanged |
| KnowledgeGraph.Graph.RepelPair | dashboard/js/knowledge-graph.js:161-177 | the repulsion of pair (i, j), read from the two current positions, is added to node i and subtracted from node j |
| KnowledgeGraph.Graph.PushNodes | dashboard/js/knowledge-graph.js:173-176 | `f` is added to node i and subtracted from node j |
| KnowledgeGraph.Graph.SpringPass | dashboard/js/knowledge-graph.js:181-196 | the springs apply in edge order; it stops at the first unresolved edge, as the source throws |
| KnowledgeGraph.Graph.SpringEdge | dashboard/js/knowledge-graph.js:181-196 | one edge of the spring pass advances the velocities by that edge's spring step, positions untouched |
| KnowledgeGraph.Graph.ApplySpring | dashboard/js/knowledge-graph.js:182-195 | one edge's spring, skipped when its endpoints coincide |
| KnowledgeGraph.Graph.SettlePass | dashboard/js/knowledge-graph.js:199-209 | friction, integration and the clamp move every node to its settled place |
| KnowledgeGraph.Graph.Tick | dashboard/js/knowledge-graph.js:152-214 | the three passes, the redraw and the next frame; an unresolved edge stops the tick before settling |
| KnowledgeGraph.Graph.HighlightConnections | dashboard/js/knowledge-graph.js:251-301 | connected labels get `highlight` and lose `dimmed`, the others get `dimmed`; edges are drawn muted then highlighted, up to the first drawn edge with an unresolved endpoint, where the handler throws |
| KnowledgeGraph.Graph.DimAll | dashboard/js/knowledge-graph.js:253 | every label gains `dimmed` |
| KnowledgeGraph.Graph.LightConnected | dashboard/js/knowledge-graph.js:268-273 | exactly the connected labels lose `dimmed` and gain `highlight` |
| KnowledgeGraph.Graph.StrokeEdges | dashboard/js/knowledge-graph.js:281-288 | a stroke loop draws its edges in order and stops at the first with an unresolved endpoint |
| KnowledgeGraph.DrawnPrefixOfAll | dashboard/js/knowledge-graph.js:316-321 | stroking every edge draws exactly the edges before the first unresolved one |
| KnowledgeGraph.HoverDrawnWhole | dashboard/js/knowledge-graph.js:281-300 | with every endpoint resolved both hover passes are drawn whole |
| KnowledgeGraph.Graph.ClearHighlights | dashboard/js/knowledge-graph.js:306-321 | both hover classes are dropped from every label and the edges are redrawn plainly up to the first with an unresolved endpoint |
| KnowledgeGraph.HoverThenLeaveRestores | dashboard/js/knowledge-graph.js:253-311 | hover then leave restores a class list that held neither hover class |
| KnowledgeGraph.HoverCycle | dashboard/js/knowledge-graph.js:130-131 | entering and leaving a label restores every label's classes |
| ContentViewer.Escape | dashboard/js/content-viewer.js:95-97 | escaped text has no `<` and is never shorter |
| ContentViewer.EscapeRoundTrip | dashboard/js/content-viewer.js:95-97 | without `>`, decoding the four entities gives the text back |
| ContentViewer.EscapeGreaterThanQuirk | dashboard/js/content-viewer.js:96 | `>` escapes to `undefined`, so two different texts escape alike |
| ContentViewer.EscapeOrdinary | dashboard/js/content-viewer.js:96 | text without special characters is unchanged |
| ContentViewer.Underscores | dashboard/js/content-viewer.js:92 | the underscore replacement keeps the length |
| ContentViewer.UnderscoresAt | dashboard/js/content-viewer.js:92 | each underscore becomes a space and every other character stays |
| ContentViewer.DropMdSuffix | dashboard/js/content-viewer.js:92 | dropping `.md` leaves a prefix of the name |
| ContentViewer.PrettifyCutsFirstMd | dashboard/js/content-viewer.js:92 | the label is the trimmed text with the leftmost standalone `md` cut out |
| ContentViewer.PrettifyPlainStem | dashboard/js/content-viewer.js:91-93 | `stem.md`, with no underscore or standalone `md` in the stem, is labelled by the trimmed stem |
| ContentViewer.PrettifyHasNoUnderscore | dashboard/js/content-viewer.js:92 | no label has an underscore |
| ContentViewer.Dashify | dashboard/js/content-viewer.js:123 | only `[a-z0-9-]` remain, with no double dash; a leading dash iff the text starts with another character |
| ContentViewer.Slug | dashboard/js/content-viewer.js:123 | the slug has only `[a-z0-9-]`, no `--` and no dash at either end |
| ContentViewer.SlugKeepsLettersAndDigits | dashboard/js/content-viewer.js:123 | the slug keeps exactly the letters and digits of the lower-cased text, in order |
| ContentViewer.AnchorTargetsOwnId | dashboard/js/content-viewer.js:124-126 | the anchor links to the heading itself iff it had no id or its id was the slug |
| ContentViewer.Body.EnhanceHeadings | dashboard/js/content-viewer.js:119-130 | each `h2`/`h3` keeps a non-empty id or gets its slug, and gains an anchor to its slug |
| ContentViewer.Position | dashboard/js/content-viewer.js:133 | -1 iff the chapter is not listed, else the first index holding it |
| ContentViewer.PrevNext | dashboard/js/content-viewer.js:132-137 | a previous link iff the chapter is listed and not first; neither link iff it is unknown or alone |
| ContentViewer.ChapterNext | dashboard/js/content-viewer.js:7-22 | in the viewer's list every chapter but the last has a next link |
| ContentViewer.NextFenceIsIndexFrom | dashboard/js/content-viewer.js:101 | the fence scan is the search for three backticks |
| ContentViewer.LineEndSpec | dashboard/js/content-viewer.js:102-107 | the first line ends at a terminator or at the end of the text |
| ContentViewer.HeadingsByLine | dashboard/js/content-viewer.js:102-107 | the six replacements, deepest first, render each line by its exact level; seven `#` or more are no heading |
| ContentViewer.RenderInsertsAllTags | dashboard/js/content-viewer.js:99-107 | after escaping, every `<` in the output starts markup the renderer wrote |
| ContentViewer.BuildLabels | dashboard/js/content-viewer.js:39-43 | the caption at each position is the prettified name of the chapter at that position |
| ContentViewer.BuildFlags | dashboard/js/content-viewer.js:39-45 | every item starts shown, and a button is active iff its chapter is the initial one |
| ContentViewer.Nav.constructor | dashboard/js/content-viewer.js:37-49 | one button per chapter, labelled by its prettified name, active iff it is the initial chapter |
| ContentViewer.Nav.Filter | dashboard/js/content-viewer.js:51-57 | an item is shown iff its lower-cased label contains the query |
| ContentViewer.Nav.OnFilterInput | dashboard/js/content-viewer.js:33 | the input is trimmed and lower-cased before filtering |
| ContentViewer.Nav.SetActive | dashboard/js/content-viewer.js:85-89 | exactly the buttons for the file are active |
| ContentViewer.EmptyQueryShowsAll | dashboard/js/content-viewer.js:54 | an empty query shows every item |
| ContentViewer.LongerQueryShowsFewer | dashboard/js/content-viewer.js:54 | extending the query never shows more items |
| ContentViewer.ChaptersDistinct | dashboard/js/content-viewer.js:7-22 | the chapter files are distinct |
| ContentViewer.OneActive | dashboard/js/content-viewer.js:85-89 | a listed chapter marks exactly one button |
| Search.SearchTerm | dashboard/js/search.js:48-53 | the term is searched iff, lower-cased and trimmed, it has at least two characters |
| Search.SearchTermIsNormal | dashboard/js/search.js:48 | a searched term has no upper-case letter and no space at either end |
| Search.Window | dashboard/js/search.js:94-96 | the window is [max(0, i − 50), min(length, i + term length + 50)) and holds the match |
| Search.Excerpt | dashboard/js/search.js:90-101 | a short paragraph is its own excerpt; a long one is at most the term length + 106 characters |
| Search.ExcerptShowsTerm | dashboard/js/search.js:93-101 | the excerpt, lower-cased, still contains the term |
| Search.ExcerptMarksCut | dashboard/js/search.js:98-100 | `...` opens a long excerpt iff the window starts after the paragraph's start |
| Search.CutKeepsMatch | dashboard/js/search.js:99 | a match survives being cut out with text around it |
| Search.ParagraphHits | dashboard/js/search.js:85-115 | the results of one section are its matching paragraphs, in order |
| Search.HitsComplete | dashboard/js/search.js:88 | every matching paragraph gives a result |
| Search.HitsSound | dashboard/js/search.js:88 | every result comes from a matching paragraph |
| Search.ParagraphHitsAppend | dashboard/js/search.js:85 | results of earlier paragraphs come first |
| Search.ResultsAppend | dashboard/js/search.js:78 | results of earlier sections come first |
| Search.SummaryPlural | dashboard/js/search.js:119-121 | the summary gives the number of results and says `result` for exactly one, `results` otherwise |
| Search.PerformSearch | dashboard/js/search.js:65-137 | unavailable without `main`, "no results" for none, else the results in section and paragraph order; a term that is not a valid regular expression throws at the first match and fills in nothing |
| Search.MatchGivesResult | dashboard/js/search.js:78-113 | a matching paragraph in any section gives a result |
| Search.TypeInvalid | dashboard/js/search.js:40-56 | typing a matching term that is not a valid regular expression leaves the spinner showing |
| Search.Overlay.Open | dashboard/js/search.js:19-24 | the overlay opens with an empty input and the prompt |
| Search.Overlay.Close | dashboard/js/search.js:27-29 | the close button hides the overlay |
| Search.Overlay.KeyDown | dashboard/js/search.js:32-36 | Escape hides an open overlay; anything else changes nothing |
| Search.Overlay.Type | dashboard/js/search.js:40-44 | typing keeps the value and shows the spinner |
| Search.Overlay.Settle | dashboard/js/search.js:47-56 | a short term shows the reminder, any other is searched; when the search throws the panel keeps what it showed |
| Gallery.AllShowsEverything | dashboard/js/gallery.js:45 | the `all` filter shows every item |
| Gallery.FilterShowsItsCategory | dashboard/js/gallery.js:45-50 | any other filter shows an item iff its category equals the filter |
| Gallery.ButtonClasses | dashboard/js/gallery.js:32-40 | a button is `active` and teal iff clicked, gray otherwise, other classes untouched |
| Gallery.ButtonClassesIdempotent | dashboard/js/gallery.js:32-40 | restyling a button a second time changes nothing |
| Gallery.FilterBar.Click | dashboard/js/gallery.js:20-54 | with items, only the clicked button is active and pressed and an item is hidden iff the filter does not show it; without items nothing changes |
| Gallery.ScaleRange | dashboard/js/gallery.js:118-133 | every reachable zoom is between 0.5 and 3 |
| Gallery.ZoomIn | dashboard/js/gallery.js:118-122 | zoom in adds 0.25 up to 3 |
| Gallery.ZoomOut | dashboard/js/gallery.js:124-128 | zoom out takes 0.25 off down to 0.5 |
| Gallery.PressesStayInRange | dashboard/js/gallery.js:118-133 | any sequence of zoom buttons keeps the zoom in [0.5, 3] |
| Gallery.ZoomInOutCancel | dashboard/js/gallery.js:118-128 | zooming in then out, away from the bounds, returns to the same zoom |
| Gallery.ZoomInRepeated | dashboard/js/gallery.js:118-122 | n zoom-ins add n quarters, capped at 3 |
| Gallery.ZoomOutRepeated | dashboard/js/gallery.js:124-128 | n zoom-outs take n quarters off, floored at 0.5 |
| Gallery.ImageModal.constructor | dashboard/js/gallery.js:59-71 | the modal starts hidden at zoom 1 with no translation |
| Gallery.ImageModal.OpenItem | dashboard/js/gallery.js:74-91 | opening shows the image at zoom 1 and locks scrolling; an item without an image changes nothing |
| Gallery.ImageModal.CloseClick | dashboard/js/gallery.js:95-98 | the close button hides the modal |
| Gallery.ImageModal.ModalClick | dashboard/js/gallery.js:101-106 | a click on the backdrop hides it, other clicks change nothing |
| Gallery.ImageModal.KeyDown | dashboard/js/gallery.js:109-114 | Escape hides an open modal only |
| Gallery.ImageModal.ZoomClick | dashboard/js/gallery.js:117-170 | a zoom button applies its rule (lines 117-133) and, by the second handler on the same buttons (lines 162-170), resets the translation to (0, 0) |
| Gallery.ImageModal.MouseDown | dashboard/js/gallery.js:140-145 | dragging starts with start = client − translation |
| Gallery.ImageModal.MouseMove | dashboard/js/gallery.js:147-154 | the translation follows the mouse only while dragging |
| Gallery.ImageModal.MouseUp | dashboard/js/gallery.js:156-159 | dragging stops and the translation stays |
| PdfExport.GetTextContent | dashboard/js/pdf-export.js:186-204 | the loop yields the section's text, `""` for a missing section |
| PdfExport.KeptSpec | dashboard/js/pdf-export.js:193-195 | kept paragraphs are exactly those not in a card, chart or gallery item |
| PdfExport.JoinedIsBlocksOfKept | dashboard/js/pdf-export.js:191-201 | the text is each kept paragraph followed by a blank line, in order |
| PdfExport.TextContentEmpty | dashboard/js/pdf-export.js:187-203 | the text is empty iff the section is missing or its kept paragraphs are all white space |
| PdfExport.TextContentTrimmed | dashboard/js/pdf-export.js:203 | the text has no white space at either end |
| PdfExport.OrElse | dashboard/js/pdf-export.js:82 | the fallback is used iff the extracted text is empty |
| PdfExport.AllSectionsAt | dashboard/js/pdf-export.js:77-139 | each section contributes a header and a body, in order |
| PdfExport.ContentAt | dashboard/js/pdf-export.js:62-76 | the report opens with its title and date |
| PdfExport.ContentLayout | dashboard/js/pdf-export.js:62-140 | six sections from Introduction on; each heading breaks the page except the first; each body uses its fallback iff its text is empty |
| PdfExport.ExportButton.Click | dashboard/js/pdf-export.js:14-21 | an enabled button becomes disabled and shows the spinner, its HTML saved; a disabled button receives no click and nothing changes |
| PdfExport.ExportButton.Generate | dashboard/js/pdf-export.js:167-177 | on success and on error the callback runs, which (lines 22-27) restores the HTML and enables the button; the download holds the report |
| PdfExport.Export | dashboard/js/pdf-export.js:14-28 | a click on the enabled button then the callback leaves the button as it was |
| PathCorrection.Corrected | dashboard/js/path-correction.js:12-14 | a `/figures/` value becomes `..` + value, two longer; anything else is unchanged |
| PathCorrection.CorrectedIdempotent | dashboard/js/path-correction.js:12-14 | a second pass changes nothing |
| PathCorrection.CorrectAll | dashboard/js/path-correction.js:10-16 | every value of one kind of element is corrected |
| PathCorrection.OnLoaded | dashboard/js/path-correction.js:10-34 | iframe sources, image sources and button targets are each corrected |
| VisualizationFallback.RelativeSrcIsPathCorrection | dashboard/js/visualization-fallback.js:22-27 | the iframe rewrite is the same as the path correction |
| VisualizationFallback.FirstMatchSpec | dashboard/js/visualization-fallback.js:61-71 | the first table entry whose key occurs gives the image; `""` iff none occurs |
| VisualizationFallback.StaticImageIsFirstMatch | dashboard/js/visualization-fallback.js:61-71 | the if chain is that first-match lookup over its four keys |
| VisualizationFallback.FallbackFor | dashboard/js/visualization-fallback.js:74-87 | a retry button iff no static image was chosen |
| VisualizationFallback.RetryIffNoStaticImage | dashboard/js/visualization-fallback.js:74-87 | the same, for an iframe with a source |
| VisualizationFallback.Container.Setup | dashboard/js/visualization-fallback.js:22-27 | the source is rewritten and nothing else changes |
| VisualizationFallback.Container.HandleError | dashboard/js/visualization-fallback.js:90-91 | the iframe is hidden and one fallback appended, with no check for an earlier one |
| VisualizationFallback.Container.CheckLoaded | dashboard/js/visualization-fallback.js:30-40 | an unreachable iframe is handled as an error |
| VisualizationFallback.Container.Retry | dashboard/js/visualization-fallback.js:94-101 | retry shows the iframe again, removes that fallback and reloads |
| VisualizationFallback.ErrorThenFailedCheck | dashboard/js/visualization-fallback.js:20-40 | an error event and a failed check insert two identical fallbacks |
| Correlations.TabClasses | dashboard/js/correlations.js:15-24 | the tab is current iff clicked and gets the inactive classes iff not; other classes untouched |
| Correlations.TabClassesIdempotent | dashboard/js/correlations.js:13-37 | clicking the same tab again changes nothing |
| Correlations.FirstWithIdSpec | dashboard/js/correlations.js:33 | the pane found is the first with the id; none iff no pane has it |
| Correlations.TabStrip.Click | dashboard/js/correlations.js:13-37 | the tabs are restyled; every pane is hidden except the first with the target id |
| Correlations.ShownPane | dashboard/js/correlations.js:27-36 | a pane is shown iff it is the first with the target id |
| Correlations.TooltipHtml | dashboard/js/correlations.js:53 | the tooltip names the figure in bold |
| Correlations.Tooltip.MouseOver | dashboard/js/correlations.js:51-60 | the tooltip is filled, placed below the reference and shown; nothing without a tooltip |
| Correlations.Tooltip.MouseOut | dashboard/js/correlations.js:62-64 | the tooltip is hidden; nothing without a tooltip |
| DirectTabs.SectionTabs.RestyleTabs | dashboard/js/direct-tab-functionality.js:39-49 | every tab of the section gets the inactive classes and no style, then the clicked tab the active class and the highlight colour; panes untouched |
| DirectTabs.SectionTabs.HidePanes | dashboard/js/direct-tab-functionality.js:51-54 | exactly the section's panes become hidden; the others and the tabs are untouched |
| DirectTabs.SectionTabs.Click | dashboard/js/direct-tab-functionality.js:12-63 | unwired, nothing changes; else the section's tabs are restyled, its panes hidden and the first pane of the page with the target id shown |
| Theme.Toggled | dashboard/js/theme.js:18 | `dark` becomes `light`, anything else `dark` |
| Theme.ToggledTwice | dashboard/js/theme.js:18 | two toggles return to `light` or `dark`; any other theme ends as `light` |
| Theme.MetaColor | dashboard/js/theme.js:45-48 | `#1e293b` iff dark, `#ffffff` otherwise |
| Theme.ThemeState.constructor | dashboard/js/main.js:11 | the theme starts as the stored one, or `light` |
| Theme.ThemeState.Apply | dashboard/js/theme.js:31-48 | `data-theme` is the theme, `dark` is set iff it is dark, the meta colour follows |
| Theme.ThemeState.Init | dashboard/js/theme.js:9-14 | without the toggle nothing happens; otherwise the theme is applied |
| Theme.ThemeState.Click | dashboard/js/theme.js:16-24 | the theme flips, is stored and applied |
| Theme.StoredThemeSurvivesReload | dashboard/js/theme.js:19-23 | the stored theme is the one the next page load starts with |
| MainPage.InitialTheme | dashboard/js/main.js:11 | the stored theme unless none or empty is stored, then `light` |
| MainPage.LastInWindowSpec | dashboard/js/main.js:129-137 | the chosen section is being read and no later one is; none iff no section is read |
| MainPage.CurrentSectionId | dashboard/js/main.js:127-137 | the loop yields the id of the last section being read, or `""` |
| MainPage.BareHashMarkedWhenNoneRead | dashboard/js/main.js:139-144 | with no section read, a link to exactly `#` is marked |
| MainPage.MarksLastRead | dashboard/js/main.js:139-144 | a link to a section is marked iff that section is the last being read |
| MainPage.NavLinks.Update | dashboard/js/main.js:123-145 | exactly the links to `#` + the current id are active |
| MainPage.ToggledExpanded | dashboard/js/main.js:157-158 | `aria-expanded` becomes `true` iff it was not `true` |
| MainPage.ToggledExpandedTwice | dashboard/js/main.js:157-158 | two toggles restore a written value |
| MainPage.MobileMenu.Toggle | dashboard/js/main.js:155-159 | the menu's visibility flips and `aria-expanded` inverts |
| MainPage.MobileMenu.LinkClick | dashboard/js/main.js:162-168 | a link click hides the menu and sets `aria-expanded` to `false` |
| DevServer.GuessTypeIsLookup | start_dashboard_server.py:19-35 | the chain of suffix tests is a first-match lookup in the extension table |
| DevServer.LookupFirst | start_dashboard_server.py:21-34 | the lookup gives the type of the first matching extension |
| DevServer.LookupNone | start_dashboard_server.py:35 | with no matching extension the library's guess is returned |
| DevServer.ExtensionGivesType | start_dashboard_server.py:21-34 | a path ending in a listed extension gets that extension's type |
| DevServer.UnknownExtension | start_dashboard_server.py:35 | any other path gets the library's guess |
| DevServer.UpperCasePngFallsThrough | start_dashboard_server.py:29-30 | the tests are case-sensitive: `.PNG` is not recognised |
| DevServer.EndHeaders | start_dashboard_server.py:37-42 | the sent headers are kept and the three CORS headers follow |
| EnhancedServer.Route | enhanced_server.py:38-48 | the rewriting loop yields the routed path |
| EnhancedServer.RootServesDashboard | enhanced_server.py:39-40 | `/` is served from `/dashboard/` |
| EnhancedServer.IndexPreference | enhanced_server.py:43-48 | `index.html` is preferred to `index.htm`; with neither the path stays |
| EnhancedServer.FilePathUnchanged | enhanced_server.py:39-48 | any other path is served as requested |
| EnhancedServer.JsonIsNotJavaScript | enhanced_server.py:70-73 | a `.json` path is typed as JSON, never as JavaScript |

## Left out

- Floating-point physics of the knowledge graph: the square roots, the inverse-square repulsion, the spring stretch and the 0.01 centring factor. The force passes take the pull, repulsion and spring as function parameters over real vectors; friction and the clamp are modelled over reals.
- `Math.random` positions become parameters. The canvas drawing, `requestAnimationFrame`, the legend HTML and the label positions are left out; a drawn frame is recorded as the list of edges stroked.
- The `tf` fractions, `norm` and `compute_idf` of the index builder are left out: they are floating point. The integer counts they come from are modelled.
- Reading files is left out: the directory listing, `read_markdown`, `read_docx`, the JSON writing and the timestamps. An entry carries its text as a parameter.
- `Common.Lower`: only ASCII letters are lower-cased. JavaScript `toLowerCase` and Python `lower` also fold other scripts.
- String lengths count characters, not UTF-16 code units, so the excerpt window of `search.js` matches only on text without astral characters.
- `ContentViewer.Render`: only escaping, fenced code and headings are modelled. The bold, italic, list, link and paragraph rules (`content-viewer.js:108-115`) use JavaScript regular-expression semantics beyond this model.
- Search highlighting (`search.js:104-107`) builds a regular expression from the unescaped term. Whether that term compiles is the `valid` parameter of `Search.PerformSearch`, and an invalid one throws. The markup it inserts is left out: a result keeps the plain excerpt.
- The 300 ms debounce and the 3 s load check are timers. They become explicit `Settle` and `CheckLoaded` calls.
- `fetch`, `history.replaceState`, `scrollTo` and the chapter loading are browser plumbing and are left out.
- The analysis scripts, the chart configuration and the chart re-theming in `theme.js:50-57` are left out: they configure plotting libraries.
- The stop-word list is not proved free of repeats. It is used only for membership.
- `ThesisIndex.SortEntries` requires unique names, as a directory listing has.
- A missing manuscript directory (`build_thesis_index.py:101-103`) is not a separate case. It returns no documents and an empty `doc_freq`, which is what `ThesisIndex.BuildDocuments` gives for an empty listing.
- The `source_files` list of `build_documents` is filled but never read, so it is left out.
- `DevServer.GuessType` takes the standard library's `guess_type` result as a parameter. `translate_path` and file existence become the set of existing paths.
- The enhanced server's logging, `super().do_GET` serving and the 500 error path are left out. Routing and typing are modelled.
- The export covers only the document content. pdfmake's header, footer, styles, document info and file download are left out.
- `Correlations.Tooltip.MouseOver` keeps the tooltip's position as integers rather than pixel strings.
- Zoom is counted in quarters, so 0.5 to 3 is 2 to 12 quarters. This is exact for the source's 0.25 steps.
- Mouse coordinates are integers.
- `Correlations.TabStrip.Click` and `DirectTabs.SectionTabs.Click` look the target up among the tab panes only. An element outside the panes with the target id is not modelled.
- Handlers that the scripts install only when their elements exist are modelled by presence flags. They are `present`, `controls` and `hasToggle`.
- `MainPage.MarksLastRead`: requires section ids to be distinct and non-empty. With a repeated id or an empty one, two links could match.
- `Theme.ThemeState.Click`: requires the toggle to exist, since the handler is installed only then.
- `VisualizationFallback.Container.Retry`: keeps `src` as it was. The browser writes back the resolved absolute URL when it assigns `iframe.src = iframe.src`. A relative source therefore becomes absolute, and the model does not capture that change.
- `KnowledgeGraph.Graph.Resize`, `KnowledgeGraph.InitKnowledgeGraph`: leave the legend, the label elements' text and positions, and the canvas size out, as drawing.
