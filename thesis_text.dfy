/** The text pipeline of the passage-index builder: the tokenizer with its
    stop-word filter, the blank-line paragraph splitter with its five-word
    minimum, Python's `splitlines` and the heading detector.

    Regular expressions are modelled by the scan they denote: `[A-Za-z]{2,}`
    by the maximal runs of ASCII letters of length two or more, and the
    separator `\n\s*\n` by a newline, a run of whitespace and the last
    newline of that run (the greedy `\s*` backs off to it). */
module ThesisText {
  import opened Common

  /** The stop words dropped by `tokenize`, each listed once. */
  const Stopwords: seq<string> := [
    "the", "a", "an", "and", "or", "of", "to", "in", "for", "on", "with", "is", "are", "was",
    "were", "be", "by", "as", "that", "this", "it", "at", "from", "we", "our", "their", "there",
    "which", "these", "those", "has", "had", "have", "but", "not", "can", "may", "also", "than",
    "such", "its", "into", "using", "used", "between", "more", "most" ]

  /** `w` is one of `ws[i..]`: membership in the stop-word set, written
      as a scan so that the verifier unfolds it only on demand. */
  predicate Listed(w: string, ws: seq<string>, i: nat)
    decreases |ws| - i
  {
    i < |ws| && (ws[i] == w || Listed(w, ws, i + 1))
  }

  lemma {:induction false} ListedIn(w: string, ws: seq<string>, i: nat)
    requires i <= |ws|
    ensures Listed(w, ws, i) <==> w in ws[i..]
    decreases |ws| - i
  {
    if i < |ws| {
      ListedIn(w, ws, i + 1);
      assert ws[i..] == [ws[i]] + ws[i + 1..];
    }
  }

  predicate IsStopword(t: string)
  {
    Listed(t, Stopwords, 0)
  }

  // ------------------------------------------------------------ tokenizer

  /** A half-open range [lo, hi) of positions in a text. */
  datatype Span = Span(lo: nat, hi: nat)

  function Slice(s: string, sp: Span): string
    requires sp.lo <= sp.hi <= |s|
  {
    s[sp.lo..sp.hi]
  }

  /** `sp` is a maximal non-empty run of ASCII letters of `s`. */
  predicate IsLetterRun(s: string, sp: Span)
  {
    sp.lo < sp.hi <= |s|
    && (forall k :: sp.lo <= k < sp.hi ==> IsAsciiLetter(s[k]))
    && (sp.lo == 0 || !IsAsciiLetter(s[sp.lo - 1]))
    && (sp.hi == |s| || !IsAsciiLetter(s[sp.hi]))
  }

  /** Index just past the run of ASCII letters that starts at `i`. */
  function RunEnd(s: string, i: nat): (j: nat)
    requires i <= |s|
    ensures i <= j <= |s|
    ensures forall k :: i <= k < j ==> IsAsciiLetter(s[k])
    ensures j < |s| ==> !IsAsciiLetter(s[j])
    decreases |s| - i
  {
    if i == |s| || !IsAsciiLetter(s[i]) then i else RunEnd(s, i + 1)
  }

  /** The maximal letter runs that start at or after `i`, left to right. */
  function LetterRuns(s: string, i: nat): (r: seq<Span>)
    requires i <= |s|
    requires i == 0 || !IsAsciiLetter(s[i - 1])
    ensures forall k :: 0 <= k < |r| ==> i <= r[k].lo && IsLetterRun(s, r[k])
    ensures forall j, k :: 0 <= j < k < |r| ==> r[j].hi < r[k].lo
    decreases |s| - i
  {
    if i == |s| then []
    else if !IsAsciiLetter(s[i]) then LetterRuns(s, i + 1)
    else
      var j := RunEnd(s, i);
      [Span(i, j)] + (if j == |s| then [] else LetterRuns(s, j + 1))
  }

  /** Every letter at or after `i` lies in one of the runs. */
  lemma {:induction false} LetterRunsComplete(s: string, i: nat, p: nat)
    requires i <= p < |s| && IsAsciiLetter(s[p])
    requires i == 0 || !IsAsciiLetter(s[i - 1])
    ensures exists sp :: sp in LetterRuns(s, i) && sp.lo <= p < sp.hi
    decreases |s| - i
  {
    var r := LetterRuns(s, i);
    if !IsAsciiLetter(s[i]) {
      assert r == LetterRuns(s, i + 1);
      LetterRunsComplete(s, i + 1, p);
    } else {
      var j := RunEnd(s, i);
      if p < j {
        assert Span(i, j) in r;
      } else {
        var rest := LetterRuns(s, j + 1);
        assert j < |s| && r == [Span(i, j)] + rest;
        LetterRunsComplete(s, j + 1, p);
        var sp :| sp in rest && sp.lo <= p < sp.hi;
        assert sp in r;
      }
    }
  }

  /** The matches of `[A-Za-z]{2,}`: runs of two letters or more. */
  function RegexMatches(s: string, runs: seq<Span>): (r: seq<Span>)
    requires forall sp :: sp in runs ==> IsLetterRun(s, sp)
    ensures forall sp :: sp in r ==> sp in runs && sp.hi - sp.lo >= 2
    ensures forall sp :: sp in runs && sp.hi - sp.lo >= 2 ==> sp in r
  {
    if runs == [] then []
    else
      var rest := RegexMatches(s, runs[1..]);
      if runs[0].hi - runs[0].lo >= 2 then [runs[0]] + rest else rest
  }

  /** A token as `tokenize` emits it. */
  predicate IsToken(t: string)
  {
    |t| > 2 && !IsStopword(t) && forall k :: 0 <= k < |t| ==> IsAsciiLower(t[k])
  }

  /** Lower-case each match and keep those longer than two characters that
      are not stop words, in order. */
  function KeepTokens(s: string, ms: seq<Span>): (r: seq<string>)
    requires forall sp :: sp in ms ==> IsLetterRun(s, sp)
    ensures forall t :: t in r ==> IsToken(t)
  {
    if ms == [] then []
    else
      assert IsLetterRun(s, ms[0]);
      var t := Lower(Slice(s, ms[0]));
      assert forall k :: 0 <= k < |t| ==> IsAsciiLower(t[k]) by {
        forall k | 0 <= k < |t| ensures IsAsciiLower(t[k]) {
          assert IsAsciiLetter(s[ms[0].lo + k]);
        }
      }
      var rest := KeepTokens(s, ms[1..]);
      if !IsStopword(t) && |t| > 2 then [t] + rest else rest
  }

  /** `tokenize(text)`. */
  function Tokenize(text: string): (r: seq<string>)
    ensures forall t :: t in r ==> IsToken(t)
  {
    var runs := LetterRuns(text, 0);
    KeepTokens(text, RegexMatches(text, runs))
  }

  /** The tokens of `text` are, in text order, the lower-cased maximal
      letter runs that are not stop words and are longer than two: each
      token comes from a run, runs that qualify are never dropped, and
      runs that do not qualify never appear. */
  lemma {:induction false} KeepTokensSpec(s: string, ms: seq<Span>, t: string)
    requires forall sp :: sp in ms ==> IsLetterRun(s, sp)
    ensures t in KeepTokens(s, ms) <==>
      exists sp :: sp in ms && t == Lower(Slice(s, sp)) && IsToken(t)
  {
    if ms != [] {
      var rest := ms[1..];
      assert ms == [ms[0]] + rest && ms[0] in ms;
      KeepTokensSpec(s, rest, t);
      var head := Lower(Slice(s, ms[0]));
      if t in KeepTokens(s, ms) && t != head {
        var sp :| sp in rest && t == Lower(Slice(s, sp)) && IsToken(t);
        assert sp in ms;
      }
      if exists sp :: sp in ms && t == Lower(Slice(s, sp)) && IsToken(t) {
        var sp :| sp in ms && t == Lower(Slice(s, sp)) && IsToken(t);
        if sp != ms[0] {
          assert sp in rest;
        } else {
          assert |head| == ms[0].hi - ms[0].lo;
        }
      }
    }
  }

  /** Every token comes from a maximal letter run of the text. */
  lemma TokenizeSound(text: string, t: string)
    requires t in Tokenize(text)
    ensures exists sp :: sp in LetterRuns(text, 0) && t == Lower(Slice(text, sp)) && IsToken(t)
  {
    var ms := RegexMatches(text, LetterRuns(text, 0));
    assert Tokenize(text) == KeepTokens(text, ms);
    KeepTokensSpec(text, ms, t);
  }

  /** A maximal letter run whose lower-cased spelling is token-shaped is
      never dropped. */
  lemma TokenizeComplete(text: string, sp: Span)
    requires sp in LetterRuns(text, 0) && IsToken(Lower(Slice(text, sp)))
    ensures Lower(Slice(text, sp)) in Tokenize(text)
  {
    var runs := LetterRuns(text, 0);
    var ms := RegexMatches(text, runs);
    assert Tokenize(text) == KeepTokens(text, ms);
    assert |Lower(Slice(text, sp))| == sp.hi - sp.lo;
    assert sp in ms;
    KeepTokensSpec(text, ms, Lower(Slice(text, sp)));
  }

  /** A word is a token exactly when some maximal letter run spells it
      (ignoring case) and it is token-shaped. */
  lemma TokenizeMembers(text: string, t: string)
    ensures t in Tokenize(text) <==>
      exists sp :: sp in LetterRuns(text, 0) && t == Lower(Slice(text, sp)) && IsToken(t)
  {
    if t in Tokenize(text) {
      TokenizeSound(text, t);
    }
    if exists sp :: sp in LetterRuns(text, 0) && t == Lower(Slice(text, sp)) && IsToken(t) {
      var sp :| sp in LetterRuns(text, 0) && t == Lower(Slice(text, sp)) && IsToken(t);
      TokenizeComplete(text, sp);
    }
  }

  /** The lower-cased spelling of each run that is token-shaped, in run
      order and once per run: the reference reading of `tokenize`. */
  function TokensOf(s: string, runs: seq<Span>): (r: seq<string>)
    requires forall sp :: sp in runs ==> sp.lo <= sp.hi <= |s|
    ensures |r| <= |runs|
  {
    if runs == [] then []
    else
      var t := Lower(Slice(s, runs[0]));
      (if IsToken(t) then [t] else []) + TokensOf(s, runs[1..])
  }

  /** Tokens of consecutive stretches of runs follow one another. */
  lemma {:induction false} TokensOfAppend(s: string, a: seq<Span>, b: seq<Span>)
    requires forall sp :: sp in a + b ==> sp.lo <= sp.hi <= |s|
    ensures TokensOf(s, a + b) == TokensOf(s, a) + TokensOf(s, b)
  {
    if a != [] {
      assert (a + b)[1..] == a[1..] + b;
      TokensOfAppend(s, a[1..], b);
    } else {
      assert a + b == b;
    }
  }

  /** A lower-cased letter run is all lower case. */
  lemma LowerRunIsLower(s: string, sp: Span)
    requires IsLetterRun(s, sp)
    ensures var t := Lower(Slice(s, sp));
      IsToken(t) <==> !IsStopword(t) && |t| > 2
  {
    var t := Lower(Slice(s, sp));
    forall k | 0 <= k < |t| ensures IsAsciiLower(t[k]) {
      assert IsAsciiLetter(s[sp.lo + k]);
    }
  }

  /** The regular expression's two-letter minimum and the later filter
      together keep exactly the token-shaped runs, in order. */
  lemma {:induction false} KeepMatchesIsTokensOf(s: string, runs: seq<Span>)
    requires forall sp :: sp in runs ==> IsLetterRun(s, sp)
    ensures KeepTokens(s, RegexMatches(s, runs)) == TokensOf(s, runs)
  {
    if runs != [] {
      var rest := runs[1..];
      assert forall sp :: sp in rest ==> sp in runs;
      KeepMatchesIsTokensOf(s, rest);
      var sp := runs[0];
      assert IsLetterRun(s, sp);
      var t := Lower(Slice(s, sp));
      if sp.hi - sp.lo >= 2 {
        var ms := RegexMatches(s, runs);
        assert ms == [sp] + RegexMatches(s, rest);
        assert ms[0] == sp && ms[1..] == RegexMatches(s, rest);
        LowerRunIsLower(s, sp);
      } else {
        assert !IsToken(t);
      }
    }
  }

  /** `tokenize` is the in-order filter of the text's maximal letter runs:
      each run that spells a token gives it once, at the run's place. */
  lemma TokenizeIsTokensOfRuns(text: string)
    ensures Tokenize(text) == TokensOf(text, LetterRuns(text, 0))
  {
    KeepMatchesIsTokensOf(text, LetterRuns(text, 0));
  }

  // ------------------------------------------------------------ paragraphs

  /** Last position q in [lo, hi) with s[q] a newline, if any. */
  function LastNewline(s: string, lo: nat, hi: nat): (r: Option<nat>)
    requires lo <= hi <= |s|
    ensures r.Some? ==> lo <= r.value < hi && s[r.value] == '\n'
    ensures r.Some? ==> forall q :: r.value < q < hi ==> s[q] != '\n'
    ensures r.None? ==> forall q :: lo <= q < hi ==> s[q] != '\n'
    decreases hi
  {
    if hi == lo then None
    else if s[hi - 1] == '\n' then Some(hi - 1)
    else LastNewline(s, lo, hi - 1)
  }

  /** Index just past the whitespace run that starts at `i`. */
  function SpaceEnd(s: string, i: nat): (j: nat)
    requires i <= |s|
    ensures i <= j <= |s|
    ensures forall k :: i <= k < j ==> IsPySpace(s[k])
    ensures j < |s| ==> !IsPySpace(s[j])
    decreases |s| - i
  {
    if i == |s| || !IsPySpace(s[i]) then i else SpaceEnd(s, i + 1)
  }

  /** Where a match of `\n\s*\n` that starts at `p` ends, if one starts there. */
  function SeparatorEnd(s: string, p: nat): (r: Option<nat>)
    requires p < |s|
    ensures r.Some? ==> p + 2 <= r.value <= |s|
  {
    if s[p] != '\n' then None
    else
      match LastNewline(s, p + 1, SpaceEnd(s, p + 1))
      case None => None
      case Some(q) => Some(q + 1)
  }

  /** A blank line: two newlines with nothing but whitespace between them. */
  predicate BlankLineAt(t: string, i: nat, j: nat)
  {
    i < j < |t| && t[i] == '\n' && t[j] == '\n' && forall k :: i < k < j ==> IsPySpace(t[k])
  }

  predicate NoBlankLine(t: string)
  {
    forall i, j :: 0 <= i < j < |t| ==> !BlankLineAt(t, i, j)
  }

  /** Where no separator match starts at a newline, the next newline is
      preceded by a non-space character after it. */
  lemma NoSeparatorGap(s: string, i: nat, j: nat)
    requires i < j < |s| && s[i] == '\n' && s[j] == '\n' && SeparatorEnd(s, i).None?
    ensures exists k :: i < k < j && !IsPySpace(s[k])
  {
    var e := SpaceEnd(s, i + 1);
    assert LastNewline(s, i + 1, e).None?;
    assert e <= j;
    assert e != j by {
      assert IsPySpace(s[j]);
    }
    assert !IsPySpace(s[e]);
  }

  /** No separator match starts in [lo, hi). */
  predicate NoSeparatorIn(s: string, lo: nat, hi: nat)
    requires hi <= |s|
  {
    forall i :: lo <= i < hi ==> SeparatorEnd(s, i).None?
  }

  lemma NoSeparatorNoBlankLine(s: string, lo: nat, hi: nat)
    requires lo <= hi <= |s| && NoSeparatorIn(s, lo, hi)
    ensures NoBlankLine(s[lo..hi])
  {
    var t := s[lo..hi];
    forall i, j | 0 <= i < j < |t| ensures !BlankLineAt(t, i, j) {
      if t[i] == '\n' && t[j] == '\n' {
        NoSeparatorGap(s, lo + i, lo + j);
        var k :| lo + i < k < lo + j && !IsPySpace(s[k]);
        assert t[k - lo] == s[k];
      }
    }
  }

  /** `t` is a match of `\n\s*\n`. */
  predicate IsSeparator(t: string)
  {
    |t| >= 2 && t[0] == '\n' && t[|t| - 1] == '\n' && forall k :: 0 <= k < |t| ==> IsPySpace(t[k])
  }

  /** Pieces k and k + 1 are separated by a match of `\n\s*\n`. */
  predicate SeparatedAt(s: string, r: seq<Span>, k: nat)
  {
    k + 1 < |r| && r[k].hi < r[k + 1].lo <= |s| && IsSeparator(s[r[k].hi..r[k + 1].lo])
  }

  /** Every two neighbouring pieces are separated by a match. */
  predicate Separated(s: string, r: seq<Span>)
  {
    forall k :: 0 <= k < |r| - 1 ==> SeparatedAt(s, r, k)
  }

  /** No separator match starts inside any piece. */
  predicate Clean(s: string, r: seq<Span>)
  {
    forall k :: 0 <= k < |r| ==> r[k].hi <= |s| && NoSeparatorIn(s, r[k].lo, r[k].hi)
  }

  /** The pieces of `re.split(r"\n\s*\n", s)` from the piece that starts at
      `start`, the scan being at `p`: the first starts at `start` and the
      last ends the text. */
  function Pieces(s: string, start: nat, p: nat): (r: seq<Span>)
    requires start <= p <= |s|
    ensures |r| > 0 && forall k :: 0 <= k < |r| ==> r[k].lo <= r[k].hi <= |s|
    ensures r[0].lo == start && r[|r| - 1].hi == |s|
    decreases |s| - p
  {
    if p == |s| then [Span(start, |s|)]
    else
      match SeparatorEnd(s, p)
      case None => Pieces(s, start, p + 1)
      case Some(q) => [Span(start, p)] + Pieces(s, q, q)
  }

  /** A separator match found by the scan is a match of `\n\s*\n`. */
  lemma SeparatorMatch(s: string, p: nat)
    requires p < |s| && SeparatorEnd(s, p).Some?
    ensures IsSeparator(s[p..SeparatorEnd(s, p).value])
  {
    var q := SeparatorEnd(s, p).value;
    var e := SpaceEnd(s, p + 1);
    assert LastNewline(s, p + 1, e) == Some(q - 1);
    assert forall k :: p < k < q ==> IsPySpace(s[k]);
  }

  /** No separator match starts inside a piece. */
  lemma {:induction false} PiecesClean(s: string, start: nat, p: nat)
    requires start <= p <= |s| && NoSeparatorIn(s, start, p)
    ensures Clean(s, Pieces(s, start, p))
    decreases |s| - p
  {
    if p == |s| {
      assert Pieces(s, start, p) == [Span(start, p)];
    } else {
      match SeparatorEnd(s, p) {
        case None =>
          assert Pieces(s, start, p) == Pieces(s, start, p + 1);
          assert NoSeparatorIn(s, start, p + 1);
          PiecesClean(s, start, p + 1);
        case Some(q) =>
          PiecesClean(s, q, q);
          var rest := Pieces(s, q, q);
          var r := Pieces(s, start, p);
          assert r == [Span(start, p)] + rest;
          forall k | 0 <= k < |r| ensures r[k].hi <= |s| && NoSeparatorIn(s, r[k].lo, r[k].hi) {
            if k > 0 {
              assert r[k] == rest[k - 1];
            }
          }
      }
    }
  }

  /** A separator match lies between each two neighbouring pieces. */
  lemma {:induction false} PiecesSeparated(s: string, start: nat, p: nat)
    requires start <= p <= |s|
    ensures Separated(s, Pieces(s, start, p))
    decreases |s| - p
  {
    if p < |s| {
      match SeparatorEnd(s, p) {
        case None =>
          assert Pieces(s, start, p) == Pieces(s, start, p + 1);
          PiecesSeparated(s, start, p + 1);
        case Some(q) =>
          PiecesSeparated(s, q, q);
          SeparatorMatch(s, p);
          var rest := Pieces(s, q, q);
          var r := Pieces(s, start, p);
          assert r == [Span(start, p)] + rest;
          assert SeparatedAt(s, r, 0);
          forall k | 1 <= k < |r| - 1 ensures SeparatedAt(s, r, k) {
            assert r[k] == rest[k - 1] && r[k + 1] == rest[k];
            assert SeparatedAt(s, rest, k - 1);
          }
      }
    }
  }

  /** The piece texts of `re.split(r"\n\s*\n", s)`, in order. */
  function PieceTexts(s: string): (r: seq<string>)
    ensures forall k :: 0 <= k < |r| ==> NoBlankLine(r[k])
  {
    var sp := Pieces(s, 0, 0);
    PiecesClean(s, 0, 0);
    assert forall k :: 0 <= k < |sp| ==> NoBlankLine(Slice(s, sp[k])) by {
      forall k | 0 <= k < |sp| ensures NoBlankLine(Slice(s, sp[k])) {
        NoSeparatorNoBlankLine(s, sp[k].lo, sp[k].hi);
      }
    }
    seq(|sp|, k requires 0 <= k < |sp| => Slice(s, sp[k]))
  }

  /** Number of whitespace-separated words (`len(t.split())`). */
  function WordCount(t: string): nat
  {
    if t == [] then 0
    else WordCount(t[..|t| - 1])
         + (if !IsPySpace(t[|t| - 1]) && (|t| == 1 || IsPySpace(t[|t| - 2])) then 1 else 0)
  }

  lemma {:induction false} NoBlankLineSlice(t: string, a: nat, b: nat)
    requires a <= b <= |t| && NoBlankLine(t)
    ensures NoBlankLine(t[a..b])
  {
    var u := t[a..b];
    forall i, j | 0 <= i < j < |u| ensures !BlankLineAt(u, i, j) {
      if u[i] == '\n' && u[j] == '\n' {
        assert !BlankLineAt(t, a + i, a + j);
        var k :| a + i < k < a + j && !IsPySpace(t[k]);
        assert u[k - a] == t[k];
      }
    }
  }

  lemma StripNoBlankLine(t: string)
    requires NoBlankLine(t)
    ensures NoBlankLine(PyStrip(t))
  {
    var p := PyStrip(t);
    TrimIsSlice(t, IsPySpace);
    var a := LeadingCount(t, IsPySpace);
    NoBlankLineSlice(t, a, a + |p|);
  }

  /** A paragraph as `split_into_paragraphs` keeps it. */
  predicate IsParagraph(p: string)
  {
    p != [] && !IsPySpace(p[0]) && !IsPySpace(p[|p| - 1]) && NoBlankLine(p) && WordCount(p) >= 5
  }

  /** Strip each piece, drop the empty ones, keep those of five words or more. */
  function KeepParagraphs(pieces: seq<string>): (r: seq<string>)
    requires forall k :: 0 <= k < |pieces| ==> NoBlankLine(pieces[k])
    ensures forall k :: 0 <= k < |r| ==> IsParagraph(r[k])
  {
    if pieces == [] then []
    else
      var p := PyStrip(pieces[0]);
      var rest := KeepParagraphs(pieces[1..]);
      if p != [] && WordCount(p) >= 5 then
        StripNoBlankLine(pieces[0]);
        TrimEdges(pieces[0], IsPySpace);
        [p] + rest
      else rest
  }

  /** The paragraphs kept are exactly the stripped pieces that are not
      empty and have five words or more. */
  lemma {:induction false} KeepParagraphsMembers(pieces: seq<string>, p: string)
    requires forall k :: 0 <= k < |pieces| ==> NoBlankLine(pieces[k])
    ensures p in KeepParagraphs(pieces) <==>
      p != [] && WordCount(p) >= 5 && exists k :: 0 <= k < |pieces| && p == PyStrip(pieces[k])
  {
    if pieces != [] {
      var rest := pieces[1..];
      KeepParagraphsMembers(rest, p);
      if p != [] && WordCount(p) >= 5 && exists k :: 0 <= k < |pieces| && p == PyStrip(pieces[k]) {
        var k :| 0 <= k < |pieces| && p == PyStrip(pieces[k]);
        if k > 0 {
          assert rest[k - 1] == pieces[k];
        }
      }
      if p in KeepParagraphs(rest) {
        var k :| 0 <= k < |rest| && p == PyStrip(rest[k]);
        assert pieces[k + 1] == rest[k];
      }
    }
  }

  /** The paragraphs of consecutive stretches of pieces follow one another. */
  lemma {:induction false} KeepParagraphsAppend(a: seq<string>, b: seq<string>)
    requires forall k :: 0 <= k < |a| ==> NoBlankLine(a[k])
    requires forall k :: 0 <= k < |b| ==> NoBlankLine(b[k])
    ensures forall k :: 0 <= k < |a + b| ==> NoBlankLine((a + b)[k])
    ensures KeepParagraphs(a + b) == KeepParagraphs(a) + KeepParagraphs(b)
  {
    if a == [] {
      assert a + b == b;
    } else {
      var ab := a + b;
      assert ab[0] == a[0] && ab[1..] == a[1..] + b;
      KeepParagraphsAppend(a[1..], b);
    }
  }

  /** One piece gives its stripped text when that is not empty and has five
      words or more, and nothing otherwise. */
  lemma KeepParagraphsOne(x: string)
    requires NoBlankLine(x)
    ensures var p := PyStrip(x);
      KeepParagraphs([x]) == if p != [] && WordCount(p) >= 5 then [p] else []
  {
    assert [x][1..] == [];
  }

  /** `split_into_paragraphs(text)`. */
  function Paragraphs(text: string): (r: seq<string>)
    ensures forall k :: 0 <= k < |r| ==> IsParagraph(r[k])
  {
    KeepParagraphs(PieceTexts(text))
  }

  // ------------------------------------------------------------ lines

  /** The line boundaries of Python's `str.splitlines`. */
  predicate IsLineBreak(c: char)
  {
    c == '\n' || c == '\r' || c == '\U{000B}' || c == '\U{000C}' || ('\U{001C}' <= c <= '\U{001E}')
    || c == '\U{0085}' || c == '\U{2028}' || c == '\U{2029}'
  }

  predicate NoLineBreak(t: string)
  {
    forall k :: 0 <= k < |t| ==> !IsLineBreak(t[k])
  }

  /** Lines from the one that starts at `start`, the scan being at `p`;
      `\r\n` counts as one boundary and no empty last line is produced. */
  function LinesFrom(s: string, start: nat, p: nat): (r: seq<string>)
    requires start <= p <= |s| && NoLineBreak(s[start..p])
    ensures forall k :: 0 <= k < |r| ==> NoLineBreak(r[k])
    decreases |s| - p
  {
    if p == |s| then (if start < |s| then [s[start..]] else [])
    else if IsLineBreak(s[p]) then
      var q := if s[p] == '\r' && p + 1 < |s| && s[p + 1] == '\n' then p + 2 else p + 1;
      [s[start..p]] + LinesFrom(s, q, q)
    else
      assert s[start..p + 1] == s[start..p] + [s[p]];
      LinesFrom(s, start, p + 1)
  }

  /** `text.splitlines()`. */
  function SplitLines(text: string): (r: seq<string>)
    ensures forall k :: 0 <= k < |r| ==> NoLineBreak(r[k])
  {
    LinesFrom(text, 0, 0)
  }

  /** Each line followed by a newline. */
  function Unlines(ls: seq<string>): string
  {
    if ls == [] then "" else ls[0] + "\n" + Unlines(ls[1..])
  }

  /** The text from `start` followed by the final newline `Unlines` adds. */
  function Closed(s: string, start: nat): string
    requires start <= |s|
  {
    s[start..] + (if start == |s| || s[|s| - 1] == '\n' then "" else "\n")
  }

  /** One line ended by a newline at `p`, then the rest of the text. */
  lemma LinesFromBreak(s: string, start: nat, p: nat)
    requires start <= p < |s| && s[p] == '\n' && NoLineBreak(s[start..p])
    requires Unlines(LinesFrom(s, p + 1, p + 1)) == Closed(s, p + 1)
    ensures Unlines(LinesFrom(s, start, p)) == Closed(s, start)
  {
    var rest := LinesFrom(s, p + 1, p + 1);
    assert LinesFrom(s, start, p) == [s[start..p]] + rest;
    assert ([s[start..p]] + rest)[1..] == rest;
    assert s[start..] == s[start..p] + "\n" + s[p + 1..];
  }

  /** On text whose only line boundary is `\n`, the lines followed by a
      newline each give back the text, plus a final newline if it had none. */
  lemma {:induction false} LinesFromRoundTrip(s: string, start: nat, p: nat)
    requires start <= p <= |s| && NoLineBreak(s[start..p])
    requires forall k :: 0 <= k < |s| && IsLineBreak(s[k]) ==> s[k] == '\n'
    ensures Unlines(LinesFrom(s, start, p)) == Closed(s, start)
    decreases |s| - p
  {
    if p == |s| {
    } else if IsLineBreak(s[p]) {
      LinesFromRoundTrip(s, p + 1, p + 1);
      LinesFromBreak(s, start, p);
    } else {
      assert s[start..p + 1] == s[start..p] + [s[p]];
      LinesFromRoundTrip(s, start, p + 1);
    }
  }

  lemma SplitLinesRoundTrip(text: string)
    requires forall k :: 0 <= k < |text| && IsLineBreak(text[k]) ==> text[k] == '\n'
    ensures Unlines(SplitLines(text)) == text + (if text == [] || text[|text| - 1] == '\n' then "" else "\n")
  {
    LinesFromRoundTrip(text, 0, 0);
  }

  // ------------------------------------------------------------ headings

  predicate IsHeadingLine(line: string)
  {
    |line| > 0 && line[0] == '#'
  }

  /** `line.lstrip('#').strip()`. */
  function HeadingText(line: string): string
  {
    PyStrip(line[LeadingCount(line, IsHash)..])
  }

  predicate IsHash(c: char) { c == '#' }

  /** `detect_section(lines)`: the cleaned text of the last heading line,
      or `None` when there is none. */
  function DetectSection(lines: seq<string>): (r: Option<string>)
    ensures r.None? <==> forall k :: 0 <= k < |lines| ==> !IsHeadingLine(lines[k])
    ensures r.Some? ==>
      exists k :: 0 <= k < |lines| && IsHeadingLine(lines[k]) && r.value == HeadingText(lines[k])
                  && forall q :: k < q < |lines| ==> !IsHeadingLine(lines[q])
  {
    match LastHeading(lines, |lines|)
    case None => None
    case Some(k) => Some(HeadingText(lines[k]))
  }

  /** Index of the last heading among the first `n` lines, found by
      scanning backwards as the source's reversed loop does. */
  function LastHeading(lines: seq<string>, n: nat): (r: Option<nat>)
    requires n <= |lines|
    ensures r.None? <==> forall k :: 0 <= k < n ==> !IsHeadingLine(lines[k])
    ensures r.Some? ==> r.value < n && IsHeadingLine(lines[r.value])
                        && forall q :: r.value < q < n ==> !IsHeadingLine(lines[q])
  {
    if n == 0 then None
    else if IsHeadingLine(lines[n - 1]) then Some(n - 1)
    else LastHeading(lines, n - 1)
  }
}
