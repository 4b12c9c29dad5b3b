/** The chapter viewer: HTML escaping, chapter-name prettifying, heading
    slugs and anchors, previous/next chapter links, the fenced-code and
    heading rules of the markdown renderer, and the navigation list with its
    filter and active marker. */
module ContentViewer {
  import opened Common

  /** The chapter files, in reading order. */
  const Chapters: seq<string> := [
    "Introduction.md", "Aims_&_Objectives.md", "Significance_&_prevelance.md",
    "Diagnostic_approaches_to_AUB.md", "nomenclature_&_classification.md",
    "Literature_review.md", "Methodology.md", "Results_&_observation.md",
    "Discussions.md", "Conclusions.md", "Recommendations.md", "Limitations.md",
    "Summary.md", "Bibliography.md" ]

  // ---------------------------------------------------------------- escaping

  /** The characters selected by the escaping pattern `[&<>"']`. */
  predicate Special(c: char) { c == '&' || c == '<' || c == '>' || c == '"' || c == '\'' }

  /** The replacement of one character. The lookup table lists `<` twice and
      has no entry for `>`, so the callback yields `undefined` for it, which
      the replacement inserts as that text. */
  function EscapeChar(c: char): string
  {
    if c == '&' then "&amp;"
    else if c == '<' then "&lt;"
    else if c == '"' then "&quot;"
    else if c == '\'' then "&#39;"
    else if c == '>' then "undefined"
    else [c]
  }

  /** `escapeHtml`: every character replaced by its `EscapeChar`. */
  function Escape(s: string): (r: string)
    ensures '<' !in r
    ensures |s| <= |r|
  {
    if s == [] then [] else EscapeChar(s[0]) + Escape(s[1..])
  }

  /** Decoding of the four entities the escaper produces; the reference
      against which escaping is a round trip. */
  function Unescape(t: string): string
    decreases |t|
  {
    if t == [] then []
    else if "&amp;" <= t then "&" + Unescape(t[5..])
    else if "&lt;" <= t then "<" + Unescape(t[4..])
    else if "&quot;" <= t then "\"" + Unescape(t[6..])
    else if "&#39;" <= t then "'" + Unescape(t[5..])
    else [t[0]] + Unescape(t[1..])
  }

  lemma UnescapeStep(c: char, rest: string)
    requires c != '>'
    ensures Unescape(EscapeChar(c) + rest) == [c] + Unescape(rest)
  {
    if c == '&' {
      UnescapeAmp(rest);
    } else if c == '<' {
      UnescapeLt(rest);
    } else if c == '"' {
      UnescapeQuot(rest);
    } else if c == '\'' {
      UnescapeApos(rest);
    } else {
      UnescapePlain(c, rest);
    }
  }

  lemma UnescapeAmp(rest: string)
    ensures Unescape("&amp;" + rest) == "&" + Unescape(rest)
  {
    var t := "&amp;" + rest;
    assert "&amp;" <= t && t[5..] == rest;
  }

  lemma UnescapeLt(rest: string)
    ensures Unescape("&lt;" + rest) == "<" + Unescape(rest)
  {
    var t := "&lt;" + rest;
    assert !("&amp;" <= t) by { assert t[1] == 'l'; }
    assert "&lt;" <= t && t[4..] == rest;
  }

  lemma UnescapeQuot(rest: string)
    ensures Unescape("&quot;" + rest) == "\"" + Unescape(rest)
  {
    var t := "&quot;" + rest;
    assert !("&amp;" <= t) && !("&lt;" <= t) by { assert t[1] == 'q'; }
    assert "&quot;" <= t && t[6..] == rest;
  }

  lemma UnescapeApos(rest: string)
    ensures Unescape("&#39;" + rest) == "'" + Unescape(rest)
  {
    var t := "&#39;" + rest;
    assert !("&amp;" <= t) && !("&lt;" <= t) && !("&quot;" <= t) by { assert t[1] == '#'; }
    assert "&#39;" <= t && t[5..] == rest;
  }

  lemma UnescapePlain(c: char, rest: string)
    requires !Special(c)
    ensures Unescape([c] + rest) == [c] + Unescape(rest)
  {
    var t := [c] + rest;
    assert t[0] == c && t[1..] == rest;
  }

  /** Escaping loses nothing as long as the text has no `>`. */
  lemma {:induction false} EscapeRoundTrip(s: string)
    requires '>' !in s
    ensures Unescape(Escape(s)) == s
  {
    if s != [] {
      assert '>' !in s[1..];
      EscapeRoundTrip(s[1..]);
      UnescapeStep(s[0], Escape(s[1..]));
    }
  }

  /** With `>` it does not: `>` and the word `undefined` escape alike. */
  lemma EscapeGreaterThanQuirk()
    ensures Escape(">") == "undefined" == Escape("undefined")
    ensures exists a, b :: a != b && Escape(a) == Escape(b)
  {
    EscapeOfGreaterThan();
    EscapeOrdinary("undefined");
    assert ">" != "undefined";
  }

  lemma EscapeOfGreaterThan()
    ensures Escape(">") == "undefined"
  {
    var gt := ">";
    assert gt[1..] == [];
  }

  /** Text without special characters is left as it is. */
  lemma {:induction false} EscapeOrdinary(s: string)
    requires forall i :: 0 <= i < |s| ==> !Special(s[i])
    ensures Escape(s) == s
  {
    if s != [] {
      EscapeOrdinary(s[1..]);
    }
  }

  // ---------------------------------------------------------------- prettify

  predicate NoUnderscore(s: string)
  {
    forall i :: 0 <= i < |s| ==> s[i] != '_'
  }

  /** The `/_/g` to space replacement. */
  function Underscores(s: string): (r: string)
    ensures |r| == |s|
  {
    if s == [] then [] else [if s[0] == '_' then ' ' else s[0]] + Underscores(s[1..])
  }

  /** Each underscore becomes a space and every other character stays. */
  lemma {:induction false} UnderscoresAt(s: string)
    ensures forall i :: 0 <= i < |s| ==>
      Underscores(s)[i] == if s[i] == '_' then ' ' else s[i]
  {
    if s != [] {
      UnderscoresAt(s[1..]);
      var r := Underscores(s);
      assert forall i :: 1 <= i < |s| ==> r[i] == Underscores(s[1..])[i - 1];
    }
  }

  /** The `\.md$` replacement. */
  function DropMdSuffix(s: string): (r: string)
    ensures r <= s
  {
    if EndsWith(s, ".md") then s[..|s| - 3] else s
  }

  /** Word characters of a regular-expression `\b`. */
  predicate IsWordChar(c: char) { IsAsciiLetter(c) || IsDigit(c) || c == '_' }

  /** `\b(md)\b` with the `i` flag matches at `i`. */
  predicate MdWordAt(s: string, i: int)
  {
    0 <= i && i + 2 <= |s| && LowerChar(s[i]) == 'm' && LowerChar(s[i + 1]) == 'd'
    && (i == 0 || !IsWordChar(s[i - 1])) && (i + 2 == |s| || !IsWordChar(s[i + 2]))
  }

  /** `t` with the leftmost standalone `md` at or after `k` cut out. */
  function CutMdFrom(t: string, k: nat): string
    decreases |t| - k
  {
    if k + 2 > |t| then t
    else if MdWordAt(t, k) then t[..k] + t[k + 2..]
    else CutMdFrom(t, k + 1)
  }

  /** The `\b(md)\b` replacement; without the `g` flag only the leftmost
      match is removed. */
  function CutFirstMd(t: string): string
  {
    CutMdFrom(t, 0)
  }

  lemma {:induction false} CutMdFromAt(t: string, k: nat, i: nat)
    requires k <= i && MdWordAt(t, i)
    requires forall j :: k <= j < i ==> !MdWordAt(t, j)
    ensures CutMdFrom(t, k) == t[..i] + t[i + 2..]
    decreases i - k
  {
    if k < i {
      assert !MdWordAt(t, k);
      CutMdFromAt(t, k + 1, i);
    }
  }

  lemma {:induction false} CutMdFromNone(t: string, k: nat)
    requires forall j :: k <= j ==> !MdWordAt(t, j)
    ensures CutMdFrom(t, k) == t
    decreases |t| - k
  {
    if k + 2 <= |t| {
      assert !MdWordAt(t, k);
      CutMdFromNone(t, k + 1);
    }
  }

  lemma CutFirstMdAt(t: string, i: nat)
    requires MdWordAt(t, i)
    requires forall j :: 0 <= j < i ==> !MdWordAt(t, j)
    ensures CutFirstMd(t) == t[..i] + t[i + 2..]
  {
    CutMdFromAt(t, 0, i);
  }

  lemma CutFirstMdNone(t: string)
    requires forall j :: !MdWordAt(t, j)
    ensures CutFirstMd(t) == t
  {
    CutMdFromNone(t, 0);
  }

  lemma {:induction false} CutKeepsNoUnderscore(t: string, k: nat)
    requires NoUnderscore(t)
    ensures NoUnderscore(CutMdFrom(t, k))
    decreases |t| - k
  {
    if k + 2 > |t| {
    } else if MdWordAt(t, k) {
      var u := t[..k] + t[k + 2..];
      assert forall m :: 0 <= m < |u| ==> u[m] == (if m < k then t[m] else t[m + 2]);
    } else {
      CutKeepsNoUnderscore(t, k + 1);
    }
  }

  /** `prettify`: underscores to spaces, a trailing `.md` dropped, the first
      standalone `md` removed, then trimmed. (Its `&` to `&` replacement
      changes nothing.) */
  function Prettify(name: string): string
  {
    JsTrim(CutFirstMd(DropMdSuffix(Underscores(name))))
  }

  /** The label is the trimmed text once the leftmost standalone `md`,
      when there is one, has been cut out. */
  lemma PrettifyCutsFirstMd(name: string, i: nat)
    requires MdWordAt(DropMdSuffix(Underscores(name)), i)
    requires forall j :: 0 <= j < i ==> !MdWordAt(DropMdSuffix(Underscores(name)), j)
    ensures var t := DropMdSuffix(Underscores(name));
            Prettify(name) == JsTrim(t[..i] + t[i + 2..])
  {
    CutFirstMdAt(DropMdSuffix(Underscores(name)), i);
  }

  /** A file `stem.md` whose stem has no underscore and no standalone `md`
      is labelled by its trimmed stem. */
  lemma PrettifyPlainStem(stem: string)
    requires NoUnderscore(stem)
    requires forall j :: !MdWordAt(stem, j)
    ensures Prettify(stem + ".md") == JsTrim(stem)
  {
    var name := stem + ".md";
    UnderscoresAt(name);
    assert Underscores(name) == name;
    assert name[..|name| - 3] == stem;
    assert DropMdSuffix(Underscores(name)) == stem;
    CutFirstMdNone(stem);
  }

  /** No label has an underscore. */
  lemma PrettifyHasNoUnderscore(name: string)
    ensures NoUnderscore(Prettify(name))
  {
    var w := Underscores(name);
    UnderscoresAt(name);
    var t := DropMdSuffix(w);
    assert forall k :: 0 <= k < |t| ==> t[k] == w[k];
    CutKeepsNoUnderscore(t, 0);
    var u := CutFirstMd(t);
    TrimIsSlice(u, IsJsSpace);
  }

  // ---------------------------------------------------------------- heading slugs

  predicate SlugChar(c: char) { IsAsciiLower(c) || IsDigit(c) }

  predicate NoDoubleDash(r: string)
  {
    forall i :: 0 <= i < |r| - 1 ==> !(r[i] == '-' && r[i + 1] == '-')
  }

  /** Index of the first slug character at or after `i`, or `|s|`. */
  function RunEnd(s: string, i: nat): (j: nat)
    requires i <= |s|
    ensures i <= j <= |s|
    ensures forall k :: i <= k < j ==> !SlugChar(s[k])
    ensures j < |s| ==> SlugChar(s[j])
    decreases |s| - i
  {
    if i == |s| || SlugChar(s[i]) then i else RunEnd(s, i + 1)
  }

  /** The `/[^a-z0-9]+/g` to `-` replacement: every maximal run of other
      characters becomes one dash. */
  function Dashify(s: string): (r: string)
    ensures forall c :: c in r ==> SlugChar(c) || c == '-'
    ensures NoDoubleDash(r)
    ensures |r| == 0 <==> |s| == 0
    ensures |r| > 0 ==> (r[0] == '-' <==> !SlugChar(s[0]))
    decreases |s|
  {
    if s == [] then []
    else if SlugChar(s[0]) then [s[0]] + Dashify(s[1..])
    else "-" + Dashify(s[RunEnd(s, 1)..])
  }

  /** The `/^-|-$/g` replacement: one leading and one trailing dash removed. */
  function StripEdges(d: string): string
  {
    var a := if d != [] && d[0] == '-' then d[1..] else d;
    if a != [] && a[|a| - 1] == '-' then a[..|a| - 1] else a
  }

  /** The slug `enhanceHeadings` computes from a heading's text. */
  function Slug(text: string): (r: string)
    ensures forall c :: c in r ==> SlugChar(c) || c == '-'
    ensures NoDoubleDash(r)
    ensures r == [] || (r[0] != '-' && r[|r| - 1] != '-')
  {
    var d := Dashify(Lower(text));
    var a := if d != [] && d[0] == '-' then d[1..] else d;
    assert NoDoubleDash(a);
    assert a != [] ==> a[0] != '-';
    StripEdges(d)
  }

  /** The letters and digits of a text, in order. */
  function Kept(s: string): string
  {
    if s == [] then [] else (if SlugChar(s[0]) then [s[0]] else []) + Kept(s[1..])
  }

  lemma {:induction false} KeptAppend(a: string, b: string)
    ensures Kept(a + b) == Kept(a) + Kept(b)
  {
    if a == [] {
      assert a + b == b;
    } else {
      var x := if SlugChar(a[0]) then [a[0]] else [];
      assert (a + b)[0] == a[0] && (a + b)[1..] == a[1..] + b;
      KeptAppend(a[1..], b);
      assert Kept(a + b) == x + (Kept(a[1..]) + Kept(b));
      assert Kept(a) == x + Kept(a[1..]);
    }
  }

  lemma {:induction false} KeptSkip(s: string, j: nat)
    requires j <= |s|
    requires forall k :: 0 <= k < j ==> !SlugChar(s[k])
    ensures Kept(s) == Kept(s[j..])
  {
    if j > 0 {
      KeptSkip(s[1..], j - 1);
      assert s[1..][j - 1..] == s[j..];
    }
  }

  lemma {:induction false} DashifyKeeps(s: string)
    ensures Kept(Dashify(s)) == Kept(s)
    decreases |s|
  {
    if s != [] {
      if SlugChar(s[0]) {
        DashifyKeeps(s[1..]);
        KeptAppend([s[0]], Dashify(s[1..]));
      } else {
        var j := RunEnd(s, 1);
        DashifyKeeps(s[j..]);
        KeptAppend("-", Dashify(s[j..]));
        KeptSkip(s, j);
      }
    }
  }

  /** The slug keeps exactly the letters and digits of the lower-cased text,
      in order; only dashes are added. */
  lemma SlugKeepsLettersAndDigits(text: string)
    ensures Kept(Slug(text)) == Kept(Lower(text))
  {
    DashifyKeeps(Lower(text));
    StripEdgesKeeps(Dashify(Lower(text)));
  }

  /** Cutting a dash off either end keeps the letters and digits. */
  lemma StripEdgesKeeps(d: string)
    ensures Kept(StripEdges(d)) == Kept(d)
  {
    var a := if d != [] && d[0] == '-' then d[1..] else d;
    if d != [] && d[0] == '-' {
      assert d == "-" + a;
      KeptAppend("-", a);
    }
    assert Kept(a) == Kept(d);
    if a != [] && a[|a| - 1] == '-' {
      assert a == a[..|a| - 1] + "-";
      KeptAppend(a[..|a| - 1], "-");
    }
  }

  // ---------------------------------------------------------------- headings in the page

  datatype Heading = Heading(level: nat, text: string, id: string, anchors: seq<string>)

  /** One heading after `enhanceHeadings`: an `h2` or `h3` keeps a non-empty
      id or receives the slug, and gets an anchor to `#` + slug. */
  function Enhanced(h: Heading): Heading
  {
    if h.level == 2 || h.level == 3 then
      h.(id := if h.id != "" then h.id else Slug(h.text), anchors := h.anchors + ["#" + Slug(h.text)])
    else h
  }

  /** The new anchor links to the heading itself exactly when the heading
      had no id or already had its slug as id. */
  lemma AnchorTargetsOwnId(h: Heading)
    requires h.level == 2 || h.level == 3
    ensures var e := Enhanced(h);
            |e.anchors| == |h.anchors| + 1 && (e.id != [] || Slug(h.text) == [])
    ensures var e := Enhanced(h);
            e.anchors[|e.anchors| - 1] == "#" + e.id <==> h.id == "" || h.id == Slug(h.text)
  {
    var e := Enhanced(h);
    if e.anchors[|e.anchors| - 1] == "#" + e.id {
      assert ("#" + Slug(h.text))[1..] == Slug(h.text);
      assert ("#" + e.id)[1..] == e.id;
    }
  }

  class Body {
    var headings: seq<Heading>

    constructor (hs: seq<Heading>)
      ensures headings == hs
    {
      headings := hs;
    }

    /** `enhanceHeadings` over the chapter's headings, in document order. */
    method EnhanceHeadings()
      modifies this
      ensures |headings| == |old(headings)|
      ensures forall i :: 0 <= i < |headings| ==> headings[i] == Enhanced(old(headings)[i])
    {
      var i := 0;
      while i < |headings|
        invariant 0 <= i <= |headings| == |old(headings)|
        invariant forall k :: 0 <= k < i ==> headings[k] == Enhanced(old(headings)[k])
        invariant forall k :: i <= k < |headings| ==> headings[k] == old(headings)[k]
      {
        var h := headings[i];
        if h.level == 2 || h.level == 3 {
          var id := Slug(h.text);
          if h.id == "" {
            h := h.(id := id);
          }
          h := h.(anchors := h.anchors + ["#" + id]);
          headings := headings[i := h];
        }
        i := i + 1;
      }
    }
  }

  // ---------------------------------------------------------------- previous / next

  /** `Array.prototype.indexOf` over the chapter list. */
  function Position(xs: seq<string>, x: string): (r: int)
    ensures -1 <= r < |xs|
    ensures r == -1 <==> x !in xs
    ensures r >= 0 ==> xs[r] == x && forall k :: 0 <= k < r ==> xs[k] != x
  {
    if xs == [] then -1
    else if xs[0] == x then 0
    else var p := Position(xs[1..], x); if p == -1 then -1 else p + 1
  }

  datatype Neighbours = Neighbours(prev: Option<string>, next: Option<string>)

  /** The links `buildPrevNext` renders; with neither, it renders `''`. */
  function PrevNext(chapters: seq<string>, current: string): (r: Neighbours)
    ensures r.prev.Some? <==> current in chapters && chapters[0] != current
    ensures r.prev.Some? ==> exists i :: 0 < i < |chapters| && chapters[i] == current
                                         && r.prev.value == chapters[i - 1]
    ensures r.next.Some? ==> exists i :: 0 <= i < |chapters| - 1 && chapters[i] == current
                                         && r.next.value == chapters[i + 1]
    ensures r.prev.None? && r.next.None? <==> current !in chapters || |chapters| == 1
  {
    var idx := Position(chapters, current);
    Neighbours(if idx > 0 then Some(chapters[idx - 1]) else None,
               if 0 <= idx < |chapters| - 1 then Some(chapters[idx + 1]) else None)
  }

  /** In the viewer's own list the last chapter has no successor and every
      other listed chapter has one. */
  lemma ChapterNext(current: string)
    ensures PrevNext(Chapters, current).next.Some? <==>
            current in Chapters && current != Chapters[|Chapters| - 1]
  {
    ChaptersDistinct();
    var idx := Position(Chapters, current);
    if current == Chapters[13] {
      assert Chapters[idx] == Chapters[13];
    }
  }

  // ---------------------------------------------------------------- rendering

  predicate IsLineEnd(c: char) { c == '\n' || c == '\r' || c == '\U{2028}' || c == '\U{2029}' }

  predicate NoLineEnd(s: string) { forall i :: 0 <= i < |s| ==> !IsLineEnd(s[i]) }

  /** Index of the first line terminator at or after `i`, or `|s|`. */
  function LineEnd(s: string, i: nat): (j: nat)
    requires i <= |s|
    ensures i <= j <= |s|
    decreases |s| - i
  {
    if i == |s| || IsLineEnd(s[i]) then i else LineEnd(s, i + 1)
  }

  lemma {:induction false} LineEndFrom(s: string, i: nat)
    requires i <= |s|
    ensures forall k :: i <= k < LineEnd(s, i) ==> !IsLineEnd(s[k])
    ensures LineEnd(s, i) < |s| ==> IsLineEnd(s[LineEnd(s, i)])
    decreases |s| - i
  {
    if i < |s| && !IsLineEnd(s[i]) {
      LineEndFrom(s, i + 1);
    }
  }

  /** The first line of `s` ends at `LineEnd(s, 0)`, on a terminator or at the end. */
  lemma LineEndSpec(s: string)
    ensures NoLineEnd(s[..LineEnd(s, 0)])
    ensures LineEnd(s, 0) < |s| ==> IsLineEnd(s[LineEnd(s, 0)])
  {
    LineEndFrom(s, 0);
    var j := LineEnd(s, 0);
    assert forall k :: 0 <= k < j ==> s[..j][k] == s[k];
  }

  lemma LineEndUnique(s: string, j: nat)
    requires j <= |s| && NoLineEnd(s[..j]) && (j == |s| || IsLineEnd(s[j]))
    ensures LineEnd(s, 0) == j
  {
    LineEndFrom(s, 0);
    assert forall k :: 0 <= k < j ==> s[..j][k] == s[k];
  }

  /** A piece of markup: `<` followed by the tag's name and attributes. */
  function Tag(name: string): string { "<" + name }

  const PreName := "pre class=\"" + "bg-gray-900 " + "text-gray-100 " + "p-3 " + "rounded " + "overflow-x-auto" + "\">"
  const OpenNames: seq<string> := ["h1>", "h2>", "h3>", "h4>", "h5>", "h6>"]
  const CloseNames: seq<string> := ["/h1>", "/h2>", "/h3>", "/h4>", "/h5>", "/h6>"]

  /** Every piece of markup the fenced-code and heading rules insert. */
  const TagNames: seq<string> := [PreName, "code>", "/code>", "/pre>", "br>"] + OpenNames + CloseNames

  function OpenTag(k: nat): string
    requires 1 <= k <= 6
  {
    Tag(OpenNames[k - 1])
  }

  function CloseTag(k: nat): string
    requires 1 <= k <= 6
  {
    Tag(CloseNames[k - 1])
  }

  /** Newlines inside a code block become `<br>`. */
  function BreakLines(code: string): (r: string)
  {
    if code == [] then []
    else (if code[0] == '\n' then Tag("br>") else [code[0]]) + BreakLines(code[1..])
  }

  /** Three backticks start at `k`. */
  predicate FenceAt(s: string, k: int)
  {
    0 <= k && k + 3 <= |s| && s[k] == '`' && s[k + 1] == '`' && s[k + 2] == '`'
  }

  /** The first fence at or after `k`, or -1. */
  function NextFence(s: string, k: nat): (r: int)
    ensures r == -1 || (k <= r && FenceAt(s, r))
    decreases |s| - k
  {
    if k + 3 > |s| then -1
    else if FenceAt(s, k) then k
    else NextFence(s, k + 1)
  }

  /** `NextFence` is the search for the text of a fence, three backticks. */
  lemma {:induction false} NextFenceIsIndexFrom(s: string, k: nat)
    ensures NextFence(s, k) == IndexFrom(s, "```", k)
    decreases |s| - k
  {
    if k + 3 <= |s| {
      assert FenceAt(s, k) <==> s[k..k + 3] == "```" by {
        if s[k..k + 3] == "```" {
          assert s[k] == s[k..k + 3][0] && s[k + 1] == s[k..k + 3][1] && s[k + 2] == s[k..k + 3][2];
        }
      }
      NextFenceIsIndexFrom(s, k + 1);
    }
  }

  /** The `/```([\s\S]*?)```/g` rule: each fence pair, leftmost first and
      closed by the nearest following fence, becomes a code block. An
      opening fence without a closing one leaves the rest untouched. */
  function Fences(s: string): string
    decreases |s|
  {
    var i := NextFence(s, 0);
    if i == -1 then s
    else
      var j := NextFence(s, i + 3);
      if j == -1 then s
      else s[..i] + CodeBlock(s[i + 3..j]) + Fences(s[j + 3..])
  }

  /** The markup that replaces one fenced block. */
  function CodeBlock(code: string): string
  {
    Tag(PreName) + Tag("code>") + BreakLines(code) + Tag("/code>") + Tag("/pre>")
  }

  /** Number of leading `#`. */
  function Hashes(line: string): (k: nat)
    ensures k <= |line| && forall i :: 0 <= i < k ==> line[i] == '#'
    ensures k < |line| ==> line[k] != '#'
  {
    if line == [] || line[0] != '#' then 0 else 1 + Hashes(line[1..])
  }

  /** A heading line: one to six `#` and then a space. */
  predicate IsHeading(line: string)
  {
    var k := Hashes(line);
    1 <= k <= 6 && k < |line| && line[k] == ' '
  }

  /** The reference rendering of one line. */
  function HeadingLine(line: string): string
  {
    if IsHeading(line) then
      var k := Hashes(line);
      OpenTag(k) + line[k + 1..] + CloseTag(k)
    else line
  }

  /** The reference rendering of a text: every line rendered on its own. */
  function HeadingLines(s: string): string
    decreases |s|
  {
    var j := LineEnd(s, 0);
    HeadingLine(s[..j]) + if j < |s| then [s[j]] + HeadingLines(s[j + 1..]) else []
  }

  /** The `^#{k} (.*)$` rule (multi-line) applied to one line. */
  function ReplaceLevel(k: nat, line: string): string
    requires 1 <= k <= 6
  {
    if k < |line| && (forall i :: 0 <= i < k ==> line[i] == '#') && line[k] == ' '
    then OpenTag(k) + line[k + 1..] + CloseTag(k)
    else line
  }

  /** One `replace` call of the heading chain: level `k` over every line. */
  function Pass(k: nat, s: string): string
    requires 1 <= k <= 6
    decreases |s|
  {
    var j := LineEnd(s, 0);
    ReplaceLevel(k, s[..j]) + if j < |s| then [s[j]] + Pass(k, s[j + 1..]) else []
  }

  /** The chain of `replace` calls from level 6 down to level `k`. */
  function Passes(s: string, k: nat): string
    requires 1 <= k <= 7
    decreases 7 - k
  {
    if k == 7 then s else Pass(k, Passes(s, k + 1))
  }

  /** `renderMarkdown` up to its heading rules: escape, code blocks, headings.
      Its inline, list, link and paragraph rules are not part of this model. */
  function Render(md: string): string
  {
    Passes(Fences(Escape(md)), 1)
  }

  // The levels, line by line: what the chain from 6 down to k does to one line.

  function Chain(line: string, k: nat): string
    requires 1 <= k <= 7
    decreases 7 - k
  {
    if k == 7 then line else ReplaceLevel(k, Chain(line, k + 1))
  }

  function Linewise(s: string, k: nat): string
    requires 1 <= k <= 7
    decreases |s|
  {
    var j := LineEnd(s, 0);
    Chain(s[..j], k) + if j < |s| then [s[j]] + Linewise(s[j + 1..], k) else []
  }

  lemma ReplaceLevelHits(k: nat, line: string)
    requires 1 <= k <= 6
    ensures (k < |line| && (forall i :: 0 <= i < k ==> line[i] == '#') && line[k] == ' ')
            <==> IsHeading(line) && Hashes(line) == k
  {
    var h := Hashes(line);
  }

  /** A rendered heading starts with `<`, so no later level matches it. */
  lemma ReplaceLevelSkipsTag(k: nat, h: nat, rest: string)
    requires 1 <= k <= 6 && 1 <= h <= 6
    ensures ReplaceLevel(k, OpenTag(h) + rest) == OpenTag(h) + rest
  {
    var c := OpenTag(h) + rest;
    assert c[0] == '<';
  }

  /** A heading deeper than `k` is already rendered when level `k` runs. */
  lemma ChainDeeper(line: string, k: nat)
    requires 1 <= k <= 6 && IsHeading(line) && Hashes(line) > k
    requires Chain(line, k + 1) == HeadingLine(line)
    ensures Chain(line, k) == HeadingLine(line)
  {
    var h := Hashes(line);
    var rest := line[h + 1..] + CloseTag(h);
    assert HeadingLine(line) == OpenTag(h) + rest;
    ReplaceLevelSkipsTag(k, h, rest);
  }

  /** A line not yet rendered is rendered by level `k` iff it is a heading
      of exactly that level. */
  lemma ChainLevel(line: string, k: nat)
    requires 1 <= k <= 6 && Chain(line, k + 1) == line
    ensures Chain(line, k) == if IsHeading(line) && Hashes(line) == k then HeadingLine(line) else line
  {
    ReplaceLevelHits(k, line);
  }

  lemma {:induction false} ChainSpec(line: string, k: nat)
    requires 1 <= k <= 7
    ensures Chain(line, k) == if IsHeading(line) && Hashes(line) >= k then HeadingLine(line) else line
    decreases 7 - k
  {
    if k < 7 {
      ChainSpec(line, k + 1);
      if IsHeading(line) && Hashes(line) > k {
        ChainDeeper(line, k);
      } else {
        ChainLevel(line, k);
      }
    }
  }

  lemma {:induction false} ChainNoLineEnd(line: string, k: nat)
    requires 1 <= k <= 7 && NoLineEnd(line)
    ensures NoLineEnd(Chain(line, k))
    decreases 7 - k
  {
    if k < 7 {
      ChainNoLineEnd(line, k + 1);
      var c := Chain(line, k + 1);
      if k < |c| && (forall i :: 0 <= i < k ==> c[i] == '#') && c[k] == ' ' {
        HeadingNamesPlain(k);
        TagNoLineEnd(OpenNames[k - 1]);
        TagNoLineEnd(CloseNames[k - 1]);
        NoLineEndAppend(OpenTag(k), c[k + 1..]);
        NoLineEndAppend(OpenTag(k) + c[k + 1..], CloseTag(k));
      }
    }
  }

  lemma NoLineEndAppend(a: string, b: string)
    requires NoLineEnd(a) && NoLineEnd(b)
    ensures NoLineEnd(a + b)
  {
    forall i | 0 <= i < |a + b| ensures !IsLineEnd((a + b)[i]) {
      if i >= |a| { assert (a + b)[i] == b[i - |a|]; }
    }
  }

  /** One pass over a first line and what follows its line end. */
  lemma PassSplit(k: nat, line: string, tail: string)
    requires 1 <= k <= 6 && NoLineEnd(line) && (tail == [] || IsLineEnd(tail[0]))
    ensures Pass(k, line + tail)
            == ReplaceLevel(k, line) + if tail == [] then [] else [tail[0]] + Pass(k, tail[1..])
  {
    var t := line + tail;
    assert t[..|line|] == line;
    LineEndUnique(t, |line|);
    if tail != [] {
      assert t[|line| + 1..] == tail[1..];
    }
  }

  lemma {:induction false} PassLinewise(k: nat, s: string)
    requires 1 <= k <= 6
    ensures Pass(k, Linewise(s, k + 1)) == Linewise(s, k)
    decreases |s|
  {
    var j := LineEnd(s, 0);
    LineEndSpec(s);
    ChainNoLineEnd(s[..j], k + 1);
    var tail := if j < |s| then [s[j]] + Linewise(s[j + 1..], k + 1) else [];
    PassSplit(k, Chain(s[..j], k + 1), tail);
    if j < |s| {
      PassLinewise(k, s[j + 1..]);
      assert tail[1..] == Linewise(s[j + 1..], k + 1);
    }
  }

  lemma {:induction false} LinewiseSeven(s: string)
    ensures Linewise(s, 7) == s
    decreases |s|
  {
    var j := LineEnd(s, 0);
    if j < |s| {
      LinewiseSeven(s[j + 1..]);
      assert s == s[..j] + [s[j]] + s[j + 1..];
    }
  }

  lemma {:induction false} PassesLinewise(s: string, k: nat)
    requires 1 <= k <= 7
    ensures Passes(s, k) == Linewise(s, k)
    decreases 7 - k
  {
    if k == 7 {
      LinewiseSeven(s);
    } else {
      PassesLinewise(s, k + 1);
      PassLinewise(k, s);
    }
  }

  lemma {:induction false} LinewiseOne(s: string)
    ensures Linewise(s, 1) == HeadingLines(s)
    decreases |s|
  {
    var j := LineEnd(s, 0);
    ChainSpec(s[..j], 1);
    if j < |s| {
      LinewiseOne(s[j + 1..]);
    }
  }

  /** The six heading replacements, deepest first, render every line on its
      own by its exact level: no line is given a wrong level, and seven or
      more `#` make no heading. */
  lemma HeadingsByLine(s: string)
    ensures Passes(s, 1) == HeadingLines(s)
  {
    PassesLinewise(s, 1);
    LinewiseOne(s);
  }

  // Every `<` of the output starts an inserted tag.

  /** Some piece of markup named in `names` starts at `i`. */
  predicate TagAt(s: string, i: int, names: seq<string>)
  {
    exists name :: name in names && OccursAt(s, Tag(name), i)
  }

  /** `s` has a `<` at `i`. */
  predicate LtAt(s: string, i: int)
  {
    0 <= i < |s| && s[i] == '<'
  }

  /** Every `<` of `s` starts a piece of markup named in `names`. */
  ghost predicate Safe(s: string, names: seq<string>)
  {
    forall i {:trigger LtAt(s, i)} :: LtAt(s, i) ==> TagAt(s, i, names)
  }

  /** Text with neither `<` nor a line terminator. */
  predicate Plain(s: string)
  {
    forall i :: 0 <= i < |s| ==> s[i] != '<' && !IsLineEnd(s[i])
  }

  predicate AllPlain(names: seq<string>)
  {
    forall name :: name in names ==> Plain(name)
  }

  /** `names` holds every piece of markup the two rules insert. */
  predicate Markup(names: seq<string>)
  {
    PreName in names && "code>" in names && "/code>" in names && "/pre>" in names && "br>" in names
    && forall k :: 0 <= k < 6 ==> OpenNames[k] in names && CloseNames[k] in names
  }

  predicate Vocabulary(names: seq<string>)
  {
    Markup(names) && AllPlain(names)
  }

  lemma PlainAppend(a: string, b: string)
    requires Plain(a) && Plain(b)
    ensures Plain(a + b)
  {
    forall i | 0 <= i < |a + b| ensures (a + b)[i] != '<' && !IsLineEnd((a + b)[i]) {
      if i >= |a| { assert (a + b)[i] == b[i - |a|]; }
    }
  }

  lemma PreNamePlain()
    ensures Plain(PreName)
  {
    var p0, p1, p2, p3, p4, p5, p6 :=
      "pre class=\"", "bg-gray-900 ", "text-gray-100 ", "p-3 ", "rounded ", "overflow-x-auto", "\">";
    assert Plain(p0) && Plain(p1) && Plain(p2) && Plain(p3) && Plain(p4) && Plain(p5) && Plain(p6);
    PlainAppend(p0, p1);
    PlainAppend(p0 + p1, p2);
    PlainAppend(p0 + p1 + p2, p3);
    PlainAppend(p0 + p1 + p2 + p3, p4);
    PlainAppend(p0 + p1 + p2 + p3 + p4, p5);
    PlainAppend(p0 + p1 + p2 + p3 + p4 + p5, p6);
  }

  lemma TagNamesPlain()
    ensures AllPlain(TagNames)
  {
    PreNamePlain();
    forall name | name in TagNames ensures Plain(name) {
      var k :| 0 <= k < |TagNames| && TagNames[k] == name;
      if k < 5 {
        assert name in [PreName, "code>", "/code>", "/pre>", "br>"];
      } else if k < 11 {
        HeadingNamesPlain(k - 4);
      } else {
        HeadingNamesPlain(k - 10);
      }
    }
  }

  lemma TagNamesMarkup()
    ensures Markup(TagNames)
  {
  }

  lemma HeadingNamesPlain(k: nat)
    requires 1 <= k <= 6
    ensures Plain(OpenNames[k - 1]) && Plain(CloseNames[k - 1])
  {
  }

  lemma TagNoLineEnd(name: string)
    requires Plain(name)
    ensures NoLineEnd(Tag(name))
  {
    assert forall i :: 0 < i < |Tag(name)| ==> Tag(name)[i] == name[i - 1];
  }

  lemma SafeTag(name: string, names: seq<string>)
    requires name in names && Plain(name)
    ensures Safe(Tag(name), names)
  {
    var t := Tag(name);
    assert forall i :: 0 < i < |t| ==> t[i] == name[i - 1];
    forall i | LtAt(t, i) ensures TagAt(t, i, names) {
      assert i == 0;
      assert OccursAt(t, t, 0);
    }
  }

  lemma SafePlain(s: string, names: seq<string>)
    requires '<' !in s
    ensures Safe(s, names)
  {
    assert forall i :: 0 <= i < |s| ==> s[i] != '<';
  }

  lemma SafeAppend(a: string, b: string, names: seq<string>)
    requires Safe(a, names) && Safe(b, names)
    ensures Safe(a + b, names)
  {
    forall i | LtAt(a + b, i) ensures TagAt(a + b, i, names) {
      if i < |a| {
        assert LtAt(a, i);
        var name :| name in names && OccursAt(a, Tag(name), i);
        assert (a + b)[i..i + |Tag(name)|] == a[i..i + |Tag(name)|];
        assert OccursAt(a + b, Tag(name), i);
      } else {
        assert LtAt(b, i - |a|);
        var name :| name in names && OccursAt(b, Tag(name), i - |a|);
        assert (a + b)[i..i + |Tag(name)|] == b[i - |a|..i - |a| + |Tag(name)|];
        assert OccursAt(a + b, Tag(name), i);
      }
    }
  }

  /** No tag spans a line end. */
  lemma TagFits(s: string, name: string, i: nat, j: nat)
    requires Plain(name) && OccursAt(s, Tag(name), i)
    requires i < j <= |s| && (j == |s| || IsLineEnd(s[j]))
    ensures i + |Tag(name)| <= j
  {
    assert j < i + |Tag(name)| ==> s[j] == Tag(name)[j - i];
    TagNoLineEnd(name);
  }

  /** A piece of safe text cut at a line end is safe. */
  lemma SafeSlice(s: string, a: nat, j: nat, names: seq<string>)
    requires AllPlain(names)
    requires Safe(s, names) && a <= j <= |s| && (j == |s| || IsLineEnd(s[j]))
    ensures Safe(s[a..j], names)
  {
    var p := s[a..j];
    forall i | LtAt(p, i) ensures TagAt(p, i, names) {
      assert LtAt(s, a + i);
      var name :| name in names && OccursAt(s, Tag(name), a + i);
      TagFits(s, name, a + i, j);
      OccursInSlice(s, Tag(name), a, j, i);
    }
  }

  lemma {:induction false} SafeBreakLines(code: string, names: seq<string>)
    requires '<' !in code && Vocabulary(names)
    ensures Safe(BreakLines(code), names)
  {
    if code != [] {
      assert code[0] in code;
      SafeBreakLines(code[1..], names);
      var first := if code[0] == '\n' then Tag("br>") else [code[0]];
      if code[0] == '\n' {
        SafeTag("br>", names);
      } else {
        SafePlain([code[0]], names);
      }
      SafeAppend(first, BreakLines(code[1..]), names);
    }
  }

  /** One code block is safe when its code has no `<`. */
  lemma SafeBlock(code: string, names: seq<string>)
    requires '<' !in code && Vocabulary(names)
    ensures Safe(CodeBlock(code), names)
  {
    SafeTag(PreName, names);
    SafeTag("code>", names);
    SafeBreakLines(code, names);
    SafeTag("/code>", names);
    SafeTag("/pre>", names);
    var x0 := Tag(PreName) + Tag("code>");
    SafeAppend(Tag(PreName), Tag("code>"), names);
    var x1 := x0 + BreakLines(code);
    SafeAppend(x0, BreakLines(code), names);
    var x2 := x1 + Tag("/code>");
    SafeAppend(x1, Tag("/code>"), names);
    SafeAppend(x2, Tag("/pre>"), names);
  }

  lemma NoLtSlice(s: string, a: nat, b: nat)
    requires '<' !in s && a <= b <= |s|
    ensures '<' !in s[a..b]
  {
    forall k | 0 <= k < b - a ensures s[a..b][k] != '<' {
      assert s[a..b][k] == s[a + k];
    }
  }

  /** Plain text, then a code block, then safe text, is safe. */
  lemma SafeJoin(head: string, code: string, tail: string, names: seq<string>)
    requires '<' !in head && '<' !in code && Safe(tail, names) && Vocabulary(names)
    ensures Safe(head + CodeBlock(code) + tail, names)
  {
    SafePlain(head, names);
    SafeBlock(code, names);
    SafeAppend(head, CodeBlock(code), names);
    SafeAppend(head + CodeBlock(code), tail, names);
  }

  lemma {:induction false} SafeFences(s: string, names: seq<string>)
    requires '<' !in s && Vocabulary(names)
    ensures Safe(Fences(s), names)
    decreases |s|
  {
    var i := NextFence(s, 0);
    if i == -1 {
      SafePlain(s, names);
    } else {
      var j := NextFence(s, i + 3);
      if j == -1 {
        SafePlain(s, names);
      } else {
        var head, code, rest := s[..i], s[i + 3..j], s[j + 3..];
        assert Fences(s) == head + CodeBlock(code) + Fences(rest);
        NoLtSlice(s, 0, i);
        NoLtSlice(s, i + 3, j);
        NoLtSlice(s, j + 3, |s|);
        assert s[0..i] == head && s[j + 3..|s|] == rest;
        SafeFences(rest, names);
        SafeJoin(head, code, Fences(rest), names);
      }
    }
  }

  lemma SafeReplaceLevel(k: nat, line: string, names: seq<string>)
    requires 1 <= k <= 6 && Safe(line, names) && Vocabulary(names)
    ensures Safe(ReplaceLevel(k, line), names)
  {
    if k < |line| && (forall i :: 0 <= i < k ==> line[i] == '#') && line[k] == ' ' {
      assert OpenNames[k - 1] in names && CloseNames[k - 1] in names;
      assert OpenTag(k) == Tag(OpenNames[k - 1]) && CloseTag(k) == Tag(CloseNames[k - 1]);
      SafeTag(OpenNames[k - 1], names);
      SafeTag(CloseNames[k - 1], names);
      SafeSlice(line, k + 1, |line|, names);
      assert line[k + 1..|line|] == line[k + 1..];
      SafeAppend(OpenTag(k), line[k + 1..], names);
      SafeAppend(OpenTag(k) + line[k + 1..], CloseTag(k), names);
    }
  }

  lemma {:induction false} SafePass(k: nat, s: string, names: seq<string>)
    requires 1 <= k <= 6 && Safe(s, names) && Vocabulary(names)
    ensures Safe(Pass(k, s), names)
    decreases |s|
  {
    var j := LineEnd(s, 0);
    LineEndSpec(s);
    SafeSlice(s, 0, j, names);
    SafeReplaceLevel(k, s[..j], names);
    if j < |s| {
      SafeSlice(s, j + 1, |s|, names);
      assert s[j + 1..|s|] == s[j + 1..];
      SafePass(k, s[j + 1..], names);
      SafePlain([s[j]], names);
      SafeAppend([s[j]], Pass(k, s[j + 1..]), names);
      SafeAppend(ReplaceLevel(k, s[..j]), [s[j]] + Pass(k, s[j + 1..]), names);
    } else {
      assert Pass(k, s) == ReplaceLevel(k, s[..j]);
    }
  }

  lemma {:induction false} SafePasses(s: string, k: nat, names: seq<string>)
    requires 1 <= k <= 7 && Safe(s, names) && Vocabulary(names)
    ensures Safe(Passes(s, k), names)
    decreases 7 - k
  {
    if k < 7 {
      SafePasses(s, k + 1, names);
      SafePass(k, Passes(s, k + 1), names);
    }
  }

  /** Escaping runs before any markup is inserted, so every `<` in the
      rendered text starts a piece of markup the renderer itself wrote. */
  lemma RenderInsertsAllTags(md: string)
    ensures Safe(Render(md), TagNames)
  {
    TagNamesPlain();
    TagNamesMarkup();
    SafeFences(Escape(md), TagNames);
    SafePasses(Fences(Escape(md)), 1, TagNames);
  }

  // ---------------------------------------------------------------- navigation list

  /** The button captions, one chapter at a time. */
  method BuildLabels(chapters: seq<string>) returns (ls: seq<string>)
    ensures |ls| == |chapters|
    ensures forall k :: 0 <= k < |chapters| ==> ls[k] == Prettify(chapters[k])
  {
    ls := [];
    var i := 0;
    while i < |chapters|
      invariant 0 <= i <= |chapters| && |ls| == i
      invariant forall k :: 0 <= k < i ==> ls[k] == Prettify(chapters[k])
    {
      ls := ls + [Prettify(chapters[i])];
      i := i + 1;
    }
  }

  /** Every button starts shown, and only the initial chapter's is active. */
  method BuildFlags(chapters: seq<string>, current: Option<string>) returns (sh: seq<bool>, ac: seq<bool>)
    ensures |sh| == |chapters| && |ac| == |chapters|
    ensures forall k :: 0 <= k < |chapters| ==> sh[k]
    ensures forall k :: 0 <= k < |chapters| ==> (ac[k] <==> current == Some(chapters[k]))
  {
    sh, ac := [], [];
    var i := 0;
    while i < |chapters|
      invariant 0 <= i <= |chapters|
      invariant |sh| == i && |ac| == i
      invariant forall k :: 0 <= k < i ==> sh[k]
      invariant forall k :: 0 <= k < i ==> (ac[k] <==> current == Some(chapters[k]))
    {
      sh := sh + [true];
      ac := ac + [current == Some(chapters[i])];
      i := i + 1;
    }
  }

  /** The chapter buttons of the navigation list, in order. */
  class Nav {
    var files: seq<string>
    var labels: seq<string>
    var shown: seq<bool>
    var active: seq<bool>

    predicate Valid()
      reads this
    {
      |labels| == |files| && |shown| == |files| && |active| == |files|
    }

    /** `buildNav`: one button per chapter, labelled by `Prettify`, marked
        active when it is the initial chapter. */
    constructor (chapters: seq<string>, current: Option<string>)
      ensures Valid() && files == chapters
      ensures forall i :: 0 <= i < |files| ==> labels[i] == Prettify(chapters[i])
      ensures forall i :: 0 <= i < |files| ==> shown[i]
      ensures forall i :: 0 <= i < |files| ==> (active[i] <==> current == Some(chapters[i]))
    {
      var ls := BuildLabels(chapters);
      var sh, ac := BuildFlags(chapters, current);
      files, labels, shown, active := chapters, ls, sh, ac;
    }

    /** `filterNav`: a button's item is shown iff its lower-cased label
        contains the query. */
    method Filter(query: string)
      requires Valid()
      modifies this
      ensures Valid() && files == old(files) && labels == old(labels) && active == old(active)
      ensures forall i :: 0 <= i < |files| ==> (shown[i] <==> Contains(Lower(labels[i]), query))
    {
      var i := 0;
      while i < |labels|
        invariant Valid() && files == old(files) && labels == old(labels) && active == old(active)
        invariant 0 <= i <= |labels|
        invariant forall k :: 0 <= k < i ==> (shown[k] <==> Contains(Lower(labels[k]), query))
      {
        shown := shown[i := Contains(Lower(labels[i]), query)];
        i := i + 1;
      }
    }

    /** The filter box's input handler: the value trimmed and lower-cased. */
    method OnFilterInput(value: string)
      requires Valid()
      modifies this
      ensures Valid() && files == old(files) && labels == old(labels) && active == old(active)
      ensures forall i :: 0 <= i < |files| ==>
        (shown[i] <==> Contains(Lower(labels[i]), Lower(JsTrim(value))))
    {
      Filter(Lower(JsTrim(value)));
    }

    /** `setActive`: exactly the buttons for `file` are active. */
    method SetActive(file: string)
      requires Valid()
      modifies this
      ensures Valid() && files == old(files) && labels == old(labels) && shown == old(shown)
      ensures forall i :: 0 <= i < |files| ==> (active[i] <==> files[i] == file)
    {
      var i := 0;
      while i < |files|
        invariant Valid() && files == old(files) && labels == old(labels) && shown == old(shown)
        invariant 0 <= i <= |files|
        invariant forall k :: 0 <= k < i ==> (active[k] <==> files[k] == file)
      {
        active := active[i := files[i] == file];
        i := i + 1;
      }
    }
  }

  /** An empty query matches every label. */
  lemma EmptyQueryShowsAll(labels: seq<string>)
    ensures forall i :: 0 <= i < |labels| ==> Contains(Lower(labels[i]), "")
  {
    forall i | 0 <= i < |labels| ensures Contains(Lower(labels[i]), "") {
      ContainsEmpty(Lower(labels[i]));
    }
  }

  /** Typing more characters never shows more items. */
  lemma LongerQueryShowsFewer(text: string, query: string, more: string)
    requires Contains(text, query + more)
    ensures Contains(text, query)
  {
    var i :| 0 <= i <= |text| - |query + more| && OccursAt(text, query + more, i);
    assert text[i..i + |query|] == (query + more)[..|query|];
    assert OccursAt(text, query, i);
  }

  /** The chapter files are distinct, so `setActive` on a listed chapter
      marks exactly one button. */
  lemma ChaptersDistinct()
    ensures forall i, j :: 0 <= i < j < |Chapters| ==> Chapters[i] != Chapters[j]
  {
  }

  lemma OneActive(files: seq<string>, file: string)
    requires forall i, j :: 0 <= i < j < |files| ==> files[i] != files[j]
    requires file in files
    ensures exists i :: 0 <= i < |files| && files[i] == file
                        && forall k :: 0 <= k < |files| && files[k] == file ==> k == i
  {
    var i :| 0 <= i < |files| && files[i] == file;
    forall k | 0 <= k < |files| && files[k] == file ensures k == i {
    }
  }
}
