/** The passage-index builder: which manuscript files are read, the
    per-passage term counts, the document frequencies, the passage ids and
    the index metadata.

    Reading a file (Markdown as text, Word documents through python-docx)
    is input: an entry of the manuscript directory carries the text its
    reader returned. The floating-point parts of the index (the `tf`
    fractions, the `norm` and the `idf` table) are not modelled; the
    integer counts they are computed from are. */
module ThesisIndex {
  import opened Common
  import opened ThesisText

  // ------------------------------------------------------------ file names

  /** An entry of the manuscript directory, with the text its reader
      returns (`read_markdown` or `read_docx`). */
  datatype Entry = Entry(name: string, isFile: bool, raw: string)

  /** `name.rfind('.')` restricted to the first `n` characters. */
  function LastDot(name: string, n: nat): (r: int)
    requires n <= |name|
    ensures -1 <= r < n
    ensures r >= 0 ==> name[r] == '.'
    ensures forall k :: r < k < n ==> name[k] != '.'
  {
    if n == 0 then -1
    else if name[n - 1] == '.' then n - 1
    else LastDot(name, n - 1)
  }

  /** Whether pathlib sees a suffix: a last dot that is neither the first
      nor the last character. */
  predicate HasSuffix(name: string)
  {
    0 < LastDot(name, |name|) < |name| - 1
  }

  /** `PurePath.suffix` of a file name. */
  function Suffix(name: string): (r: string)
    ensures r == [] || (|r| >= 2 && r[0] == '.' && |r| < |name|)
    ensures forall k :: 0 < k < |r| ==> r[k] != '.'
  {
    if HasSuffix(name) then name[LastDot(name, |name|)..] else ""
  }

  /** `PurePath.stem` of a file name. */
  function Stem(name: string): string
  {
    if HasSuffix(name) then name[..LastDot(name, |name|)] else name
  }

  lemma StemSuffix(name: string)
    ensures Stem(name) + Suffix(name) == name
    ensures Suffix(name) != [] ==> Stem(name) != []
  {
  }

  const Extensions: set<string> := {".md", ".txt", ".docx"}

  /** The entry is a file whose lower-cased suffix is one the builder reads. */
  predicate Readable(e: Entry)
  {
    e.isFile && Lower(Suffix(e.name)) in Extensions
  }

  // ------------------------------------------------------------ term counts

  /** Occurrences of `t` among the first `n` elements of `ts`. */
  function Occ(ts: seq<string>, n: nat, t: string): nat
    requires n <= |ts|
  {
    if n == 0 then 0 else Occ(ts, n - 1, t) + (if ts[n - 1] == t then 1 else 0)
  }

  lemma {:induction false} OccPositive(ts: seq<string>, n: nat, t: string)
    requires n <= |ts|
    ensures Occ(ts, n, t) > 0 <==> exists k :: 0 <= k < n && ts[k] == t
  {
    if n > 0 {
      OccPositive(ts, n - 1, t);
    }
  }

  /** `d.get(t, 0)`. */
  function Get(d: map<string, nat>, t: string): nat
  {
    if t in d then d[t] else 0
  }

  /** The tally loop `d[t] = d.get(t, 0) + 1` run over the first `n`
      elements of `ks`, starting from `d`: `tf_counts` starts empty and
      runs over the tokens, `doc_freq` runs over each passage's keys. */
  function Tally(d: map<string, nat>, ks: seq<string>, n: nat): map<string, nat>
    requires n <= |ks|
  {
    if n == 0 then d else
      var m := Tally(d, ks, n - 1);
      m[ks[n - 1] := Get(m, ks[n - 1]) + 1]
  }

  /** A tally adds to each key the number of times it occurs, and has
      exactly the keys it started with and the elements counted. */
  lemma {:induction false} TallySpec(d: map<string, nat>, ks: seq<string>, n: nat, t: string)
    requires n <= |ks|
    ensures t in Tally(d, ks, n) <==> t in d || Occ(ks, n, t) > 0
    ensures Get(Tally(d, ks, n), t) == Get(d, t) + Occ(ks, n, t)
  {
    if n > 0 {
      TallySpec(d, ks, n - 1, t);
    }
  }

  /** No element occurs twice. */
  predicate Distinct(ks: seq<string>)
  {
    forall j, k :: 0 <= j < k < |ks| ==> ks[j] != ks[k]
  }

  /** The keys of `tf_counts` in insertion order (first occurrence). */
  function Order(ts: seq<string>, n: nat): seq<string>
    requires n <= |ts|
  {
    if n == 0 then []
    else
      var r := Order(ts, n - 1);
      if ts[n - 1] in r then r else r + [ts[n - 1]]
  }

  /** The key order lists each distinct token once. */
  lemma {:induction false} OrderSpec(ts: seq<string>, n: nat)
    requires n <= |ts|
    ensures Distinct(Order(ts, n))
    ensures forall t :: t in Order(ts, n) <==> t in Tally(map[], ts, n)
  {
    if n > 0 {
      OrderSpec(ts, n - 1);
    }
  }

  lemma {:induction false} OccDistinct(ks: seq<string>, n: nat, t: string)
    requires n <= |ks| && Distinct(ks)
    ensures Occ(ks, n, t) == if t in ks[..n] then 1 else 0
  {
    if n > 0 {
      OccDistinct(ks, n - 1, t);
      assert ks[..n] == ks[..n - 1] + [ks[n - 1]];
    }
  }

  /** Sum of `m[ks[k]]` for k < n: `sum(tf_counts.values())` when `ks` is
      the key order. */
  function SumOver(m: map<string, nat>, ks: seq<string>, n: nat): nat
    requires n <= |ks|
  {
    if n == 0 then 0 else SumOver(m, ks, n - 1) + Get(m, ks[n - 1])
  }

  lemma {:induction false} SumOverBump(m: map<string, nat>, ks: seq<string>, n: nat, t: string)
    requires n <= |ks|
    ensures SumOver(m[t := Get(m, t) + 1], ks, n) == SumOver(m, ks, n) + Occ(ks, n, t)
  {
    if n > 0 {
      SumOverBump(m, ks, n - 1, t);
    }
  }

  lemma {:induction false} SumOverPrefix(m: map<string, nat>, ks: seq<string>, x: string, n: nat)
    requires n <= |ks|
    ensures SumOver(m, ks + [x], n) == SumOver(m, ks, n)
  {
    if n > 0 {
      SumOverPrefix(m, ks, x, n - 1);
      assert (ks + [x])[n - 1] == ks[n - 1];
    }
  }

  /** One counting step adds one to the sum over the key order. */
  lemma CountStep(m: map<string, nat>, r: seq<string>, t: string)
    requires Distinct(r) && (t !in r ==> t !in m)
    ensures var r' := if t in r then r else r + [t];
      SumOver(m[t := Get(m, t) + 1], r', |r'|) == SumOver(m, r, |r|) + 1
  {
    var m' := m[t := Get(m, t) + 1];
    SumOverBump(m, r, |r|, t);
    OccDistinct(r, |r|, t);
    assert r[..|r|] == r;
    if t !in r {
      SumOverPrefix(m', r, t, |r|);
      assert SumOver(m', r + [t], |r| + 1) == SumOver(m', r + [t], |r|) + Get(m', t);
    }
  }

  /** The counts add up to the number of tokens, so the `tf` fractions
      `count / total` add up to one. */
  lemma {:induction false} CountsTotal(ts: seq<string>, n: nat)
    requires n <= |ts|
    ensures SumOver(Tally(map[], ts, n), Order(ts, n), |Order(ts, n)|) == n
  {
    if n > 0 {
      CountsTotal(ts, n - 1);
      OrderSpec(ts, n - 1);
      CountStep(Tally(map[], ts, n - 1), Order(ts, n - 1), ts[n - 1]);
    }
  }

  /** The counting loop of `build_documents`: returns `tf_counts` and its
      key order. */
  method CountTerms(ts: seq<string>) returns (counts: map<string, nat>, order: seq<string>)
    ensures counts == Tally(map[], ts, |ts|) && order == Order(ts, |ts|)
  {
    counts, order := map[], [];
    var i := 0;
    while i < |ts|
      invariant i <= |ts|
      invariant counts == Tally(map[], ts, i) && order == Order(ts, i)
    {
      var t := ts[i];
      OrderSpec(ts, i);
      if t !in counts {
        order := order + [t];
      }
      counts := counts[t := Get(counts, t) + 1];
      i := i + 1;
    }
  }

  /** The loop `for t in tf: doc_freq[t] = doc_freq.get(t, 0) + 1`. */
  method AddDocFreq(df: map<string, nat>, keys: seq<string>) returns (r: map<string, nat>)
    ensures r == Tally(df, keys, |keys|)
  {
    r := df;
    var i := 0;
    while i < |keys|
      invariant i <= |keys| && r == Tally(df, keys, i)
    {
      r := r[keys[i] := Get(r, keys[i]) + 1];
      i := i + 1;
    }
  }

  // ------------------------------------------------------------ passages

  /** A passage of the index; its `tf` fractions and `norm` are left out,
      the integer counts and their key order are kept. */
  datatype Document = Document(id: string, file: string, section: Option<string>, text: string,
                               tokens: seq<string>, counts: map<string, nat>, order: seq<string>)

  /** The counts of a passage are the tally of its tokens, in first
      occurrence order. */
  predicate Counted(d: Document)
  {
    d.counts == Tally(map[], d.tokens, |d.tokens|) && d.order == Order(d.tokens, |d.tokens|)
  }

  /** `f"{path.stem}::{idx}"`. */
  function Id(stem: string, idx: nat): string
  {
    stem + "::" + NatToString(idx)
  }

  /** Two ids with the same stem are equal only for the same index. */
  lemma IdInjective(stem: string, i: nat, j: nat)
    requires Id(stem, i) == Id(stem, j)
    ensures i == j
  {
    var p := |stem| + 2;
    assert Id(stem, i)[p..] == NatToString(i);
    assert Id(stem, j)[p..] == NatToString(j);
    NatToStringInjective(i, j);
  }

  /** `lines[:n]`, which stops at the end of the list. */
  function Take(lines: seq<string>, n: nat): seq<string>
  {
    if n <= |lines| then lines[..n] else lines
  }

  /** The document built for paragraph `idx` of entry `e`, whose tokens
      are `ts`. Its section is looked up in the first `idx + 1` lines of
      the file, `idx` being the paragraph index, not the line the
      paragraph starts on. */
  function Passage(e: Entry, lines: seq<string>, idx: nat, para: string, ts: seq<string>): (d: Document)
    ensures Counted(d) && d.id == Id(Stem(e.name), idx) && d.file == e.name
    ensures d.text == para && d.tokens == ts
  {
    Document(Id(Stem(e.name), idx), e.name, DetectSection(Take(lines, idx + 1)), para,
             ts, Tally(map[], ts, |ts|), Order(ts, |ts|))
  }

  /** The section of a passage is found exactly when one of the first
      `idx + 1` lines of the file is a heading line, wherever the
      paragraph itself lies in the file. */
  lemma PassageSection(e: Entry, lines: seq<string>, idx: nat, para: string, ts: seq<string>)
    ensures Passage(e, lines, idx, para, ts).section.Some? <==>
      exists k :: 0 <= k <= idx && k < |lines| && IsHeadingLine(lines[k])
  {
    var t := Take(lines, idx + 1);
    assert forall k :: 0 <= k < |t| ==> t[k] == lines[k] && k <= idx;
  }

  /** So paragraph 2 of a file whose only heading is its fifth line gets
      no section, though the paragraph lies below that heading. */
  lemma LateHeadingMissed(e: Entry, para: string, ts: seq<string>)
    ensures Passage(e, ["First words", "", "More words", "", "# Methods", "", para], 2, para, ts).section == None
  {
    PassageSection(e, ["First words", "", "More words", "", "# Methods", "", para], 2, para, ts);
  }

  /** The tokens of each paragraph. */
  function TokensOf(ps: seq<string>): (r: seq<seq<string>>)
    ensures |r| == |ps|
  {
    seq(|ps|, i requires 0 <= i < |ps| => Tokenize(ps[i]))
  }

  /** Every token of every paragraph is a token as `tokenize` emits it. */
  lemma TokensOfAreTokens(ps: seq<string>, i: nat, t: string)
    requires i < |ps| && t in TokensOf(ps)[i]
    ensures IsToken(t)
  {
  }

  /** What paragraph `n` contributes: its document if it has tokens. */
  function PassageOf(e: Entry, lines: seq<string>, ps: seq<string>, toks: seq<seq<string>>, n: nat): seq<Document>
    requires n < |ps| == |toks|
  {
    if toks[n] == [] then [] else [Passage(e, lines, n, ps[n], toks[n])]
  }

  /** The documents of the first `n` paragraphs, `toks` holding their
      tokens: paragraphs without tokens are skipped, the index still
      advancing past them. */
  function Passages(e: Entry, lines: seq<string>, ps: seq<string>, toks: seq<seq<string>>, n: nat): seq<Document>
    requires n <= |ps| == |toks|
  {
    Flatten(PerParagraph(e, lines, ps, toks), n)
  }

  /** What each paragraph contributes. */
  function PerParagraph(e: Entry, lines: seq<string>, ps: seq<string>, toks: seq<seq<string>>): (r: seq<seq<Document>>)
    requires |ps| == |toks|
    ensures |r| == |ps|
  {
    seq(|ps|, i requires 0 <= i < |ps| => PassageOf(e, lines, ps, toks, i))
  }

  /** The documents after paragraph `n`, appended to earlier ones. */
  lemma PassagesGrow(e: Entry, lines: seq<string>, ps: seq<string>, toks: seq<seq<string>>,
                     docs: seq<Document>, n: nat)
    requires n < |ps| == |toks|
    ensures docs + Passages(e, lines, ps, toks, n + 1)
         == (docs + Passages(e, lines, ps, toks, n)) + PassageOf(e, lines, ps, toks, n)
  {
    assert PerParagraph(e, lines, ps, toks)[n] == PassageOf(e, lines, ps, toks, n);
    assert docs + (Passages(e, lines, ps, toks, n) + PassageOf(e, lines, ps, toks, n))
           == (docs + Passages(e, lines, ps, toks, n)) + PassageOf(e, lines, ps, toks, n);
  }

  /** `d` is the document of paragraph `idx`, which has tokens. */
  predicate PassageAt(e: Entry, lines: seq<string>, ps: seq<string>, toks: seq<seq<string>>,
                      idx: nat, d: Document)
    requires |ps| == |toks|
  {
    idx < |ps| && toks[idx] != [] && d == Passage(e, lines, idx, ps[idx], toks[idx])
  }

  /** Each document comes from one earlier paragraph that has tokens. */
  lemma PassagesFrom(e: Entry, lines: seq<string>, ps: seq<string>,
                     toks: seq<seq<string>>, n: nat, d: Document)
    requires n <= |ps| == |toks| && d in Passages(e, lines, ps, toks, n)
    ensures exists idx: nat :: idx < n && PassageAt(e, lines, ps, toks, idx, d)
  {
    var parts := PerParagraph(e, lines, ps, toks);
    FlattenFrom(parts, n, d);
    var idx :| 0 <= idx < n && d in parts[idx];
    assert PassageAt(e, lines, ps, toks, idx, d);
  }

  /** Every paragraph with tokens gives its document. */
  lemma PassagesHave(e: Entry, lines: seq<string>, ps: seq<string>,
                     toks: seq<seq<string>>, n: nat, idx: nat)
    requires idx < n <= |ps| == |toks| && toks[idx] != []
    ensures Passage(e, lines, idx, ps[idx], toks[idx]) in Passages(e, lines, ps, toks, n)
  {
    var parts := PerParagraph(e, lines, ps, toks);
    assert parts[idx] == [Passage(e, lines, idx, ps[idx], toks[idx])];
    FlattenHave(parts, n, idx, Passage(e, lines, idx, ps[idx], toks[idx]));
  }

  /** The documents of the first `n` paragraphs are exactly those of the
      paragraphs with tokens. */
  lemma PassagesSpec(e: Entry, lines: seq<string>, ps: seq<string>, toks: seq<seq<string>>,
                     n: nat, d: Document)
    requires n <= |ps| == |toks|
    ensures d in Passages(e, lines, ps, toks, n)
        <==> exists idx: nat :: idx < n && PassageAt(e, lines, ps, toks, idx, d)
  {
    if d in Passages(e, lines, ps, toks, n) {
      PassagesFrom(e, lines, ps, toks, n, d);
    }
    if exists idx: nat :: idx < n && PassageAt(e, lines, ps, toks, idx, d) {
      var idx: nat :| idx < n && PassageAt(e, lines, ps, toks, idx, d);
      PassagesHave(e, lines, ps, toks, n, idx);
    }
  }

  /** No two documents share an id. */
  predicate DistinctIds(r: seq<Document>)
  {
    forall j, k :: 0 <= j < k < |r| ==> r[j].id != r[k].id
  }

  lemma DistinctIdsAppend(a: seq<Document>, b: seq<Document>)
    requires DistinctIds(a) && |b| <= 1
    requires forall d, d' :: d in a && d' in b ==> d.id != d'.id
    ensures DistinctIds(a + b)
  {
    var r := a + b;
    forall j, k | 0 <= j < k < |r| ensures r[j].id != r[k].id {
      if k >= |a| {
        assert r[j] in a && r[k] in b;
      }
    }
  }

  /** The ids of the documents of one file are pairwise different, though
      they may have gaps where a paragraph had no tokens. */
  lemma {:induction false} PassagesIdsDistinct(e: Entry, lines: seq<string>, ps: seq<string>,
                                               toks: seq<seq<string>>, n: nat)
    requires n <= |ps| == |toks|
    ensures DistinctIds(Passages(e, lines, ps, toks, n))
  {
    if n > 0 {
      var before, last := Passages(e, lines, ps, toks, n - 1), PassageOf(e, lines, ps, toks, n - 1);
      PassagesIdsDistinct(e, lines, ps, toks, n - 1);
      forall d, d' | d in before && d' in last ensures d.id != d'.id {
        PassagesFrom(e, lines, ps, toks, n - 1, d);
        var idx: nat :| idx < n - 1 && PassageAt(e, lines, ps, toks, idx, d);
        if d.id == d'.id {
          IdInjective(Stem(e.name), idx, n - 1);
        }
      }
      DistinctIdsAppend(before, last);
      assert PerParagraph(e, lines, ps, toks)[n - 1] == last;
    }
  }

  /** The documents of one directory entry: none unless it is a readable
      file whose text is not blank, else one per paragraph with tokens. */
  function FileDocuments(e: Entry): (r: seq<Document>)
    ensures r != [] ==> Readable(e) && PyStrip(e.raw) != []
  {
    if !Readable(e) || PyStrip(e.raw) == [] then []
    else
      var ps := Paragraphs(e.raw);
      Passages(e, SplitLines(e.raw), ps, TokensOf(ps), |ps|)
  }

  /** The documents of each entry of the listing. */
  function PerFile(listing: seq<Entry>): (r: seq<seq<Document>>)
    ensures |r| == |listing|
  {
    seq(|listing|, i requires 0 <= i < |listing| => FileDocuments(listing[i]))
  }

  /** The documents of the first `n` entries of the listing, in order. */
  function Documents(listing: seq<Entry>, n: nat): seq<Document>
    requires n <= |listing|
  {
    Flatten(PerFile(listing), n)
  }

  // ------------------------------------------------------------ document frequency

  /** `doc_freq` after the first `n` documents. */
  function DocFreq(docs: seq<Document>, n: nat): map<string, nat>
    requires n <= |docs|
  {
    if n == 0 then map[] else
      var d := docs[n - 1];
      Tally(DocFreq(docs, n - 1), d.order, |d.order|)
  }

  /** Number of the first `n` documents whose counts hold `t`. */
  function Holding(docs: seq<Document>, n: nat, t: string): (c: nat)
    requires n <= |docs|
    ensures c <= n
  {
    if n == 0 then 0 else Holding(docs, n - 1, t) + (if t in docs[n - 1].counts then 1 else 0)
  }

  /** A passage's key order holds each of its keys exactly once. */
  lemma OrderOnce(d: Document, t: string)
    requires Counted(d)
    ensures Occ(d.order, |d.order|, t) == if t in d.counts then 1 else 0
  {
    OrderSpec(d.tokens, |d.tokens|);
    OccDistinct(d.order, |d.order|, t);
    assert d.order[..|d.order|] == d.order;
  }

  /** `doc_freq[t]` is the number of documents that contain `t`, so it
      never exceeds the number of documents. */
  lemma {:induction false} DocFreqSpec(docs: seq<Document>, n: nat, t: string)
    requires n <= |docs| && forall d :: d in docs ==> Counted(d)
    ensures Get(DocFreq(docs, n), t) == Holding(docs, n, t) <= n
  {
    if n > 0 {
      DocFreqSpec(docs, n - 1, t);
      var d := docs[n - 1];
      TallySpec(DocFreq(docs, n - 1), d.order, |d.order|, t);
      OrderOnce(d, t);
    }
  }

  lemma {:induction false} DocFreqPrefix(docs: seq<Document>, more: seq<Document>, n: nat)
    requires n <= |docs|
    ensures DocFreq(docs + more, n) == DocFreq(docs, n)
  {
    if n > 0 {
      DocFreqPrefix(docs, more, n - 1);
      assert (docs + more)[n - 1] == docs[n - 1];
    }
  }

  lemma DocFreqSnoc(docs: seq<Document>, d: Document)
    ensures DocFreq(docs + [d], |docs| + 1) == Tally(DocFreq(docs, |docs|), d.order, |d.order|)
  {
    DocFreqPrefix(docs, [d], |docs|);
    assert (docs + [d])[|docs|] == d;
  }

  // ------------------------------------------------------------ documents of a listing

  /** `d` was read from the readable, non-blank file `e`. */
  predicate ReadFrom(d: Document, e: Entry)
  {
    Readable(e) && PyStrip(e.raw) != [] && d.file == e.name
  }

  /** Every document of an entry comes from that readable, non-blank file
      and counts its own tokens. */
  lemma FileDocumentsFrom(e: Entry, d: Document)
    requires d in FileDocuments(e)
    ensures ReadFrom(d, e) && Counted(d)
  {
    var ps := Paragraphs(e.raw);
    PassagesFrom(e, SplitLines(e.raw), ps, TokensOf(ps), |ps|, d);
  }

  /** Every document of a listing comes from a readable, non-blank file
      of the listing and carries that file's name; its counts are the
      tally of its tokens. */
  lemma DocumentsFrom(listing: seq<Entry>, n: nat, d: Document)
    requires n <= |listing| && d in Documents(listing, n)
    ensures Counted(d)
    ensures exists i :: 0 <= i < n && ReadFrom(d, listing[i])
  {
    FlattenFrom(PerFile(listing), n, d);
    var i :| 0 <= i < n && d in PerFile(listing)[i];
    FileDocumentsFrom(listing[i], d);
  }

  /** `doc_freq[t]` over the documents of a listing is the number of its
      documents that contain `t`, at most `total_passages`. */
  lemma DocumentsDocFreq(listing: seq<Entry>, t: string)
    ensures var docs := Documents(listing, |listing|);
      Get(DocFreq(docs, |docs|), t) == Holding(docs, |docs|, t) <= |docs|
  {
    var docs := Documents(listing, |listing|);
    forall d | d in docs ensures Counted(d) {
      DocumentsFrom(listing, |listing|, d);
    }
    DocFreqSpec(docs, |docs|, t);
  }

  // ------------------------------------------------------------ sorting

  /** Entries in increasing order of name. */
  predicate SortedByName(xs: seq<Entry>)
  {
    forall j, k :: 0 <= j < k < |xs| ==> Below(xs[j].name, xs[k].name)
  }

  /** A directory lists each name once. */
  predicate UniqueNames(xs: seq<Entry>)
  {
    forall j, k :: 0 <= j < k < |xs| ==> xs[j].name != xs[k].name
  }

  /** A bound below every entry of `ys` and below `x` is below every entry
      of any arrangement of them. */
  lemma InsertedAbove(a: string, x: Entry, ys: seq<Entry>, rest: seq<Entry>)
    requires multiset(rest) == multiset(ys) + multiset{x}
    requires Below(a, x.name) && forall k :: 0 <= k < |ys| ==> Below(a, ys[k].name)
    ensures forall k :: 0 <= k < |rest| ==> Below(a, rest[k].name)
  {
    forall k | 0 <= k < |rest| ensures Below(a, rest[k].name) {
      assert rest[k] in multiset(rest);
      if rest[k] != x {
        assert rest[k] in multiset(ys);
        var i :| 0 <= i < |ys| && ys[i] == rest[k];
      }
    }
  }

  lemma SortedCons(a: Entry, rest: seq<Entry>)
    requires SortedByName(rest) && forall k :: 0 <= k < |rest| ==> Below(a.name, rest[k].name)
    ensures SortedByName([a] + rest)
  {
    var r := [a] + rest;
    forall j, k | 0 <= j < k < |r| ensures Below(r[j].name, r[k].name) {
      assert r[k] == rest[k - 1];
      if j > 0 { assert r[j] == rest[j - 1]; }
    }
  }

  function InsertEntry(x: Entry, xs: seq<Entry>): (r: seq<Entry>)
    requires SortedByName(xs) && forall y :: y in xs ==> y.name != x.name
    ensures SortedByName(r) && multiset(r) == multiset(xs) + multiset{x}
  {
    if xs == [] then [x]
    else if Below(x.name, xs[0].name) then
      forall k | 0 < k < |xs| ensures Below(x.name, xs[k].name) {
        BelowTransitive(x.name, xs[0].name, xs[k].name);
      }
      SortedCons(x, xs);
      [x] + xs
    else
      BelowTotal(x.name, xs[0].name);
      var rest := InsertEntry(x, xs[1..]);
      assert xs == [xs[0]] + xs[1..];
      InsertedAbove(xs[0].name, x, xs[1..], rest);
      SortedCons(xs[0], rest);
      [xs[0]] + rest
  }

  /** In a listing without repeated names, no rearrangement of the entries
      after the first shares its name. */
  lemma FirstNameFresh(xs: seq<Entry>, rest: seq<Entry>)
    requires xs != [] && UniqueNames(xs) && multiset(rest) == multiset(xs[1..])
    ensures forall y :: y in rest ==> y.name != xs[0].name
  {
    forall y | y in rest ensures y.name != xs[0].name {
      assert y in multiset(xs[1..]);
      var i :| 0 <= i < |xs[1..]| && xs[1..][i] == y;
      assert xs[i + 1] == y;
    }
  }

  /** `sorted(...)` of a directory listing, by name. */
  function SortEntries(xs: seq<Entry>): (r: seq<Entry>)
    requires UniqueNames(xs)
    ensures SortedByName(r) && multiset(r) == multiset(xs) && |r| == |xs|
  {
    if xs == [] then []
    else
      var rest := SortEntries(xs[1..]);
      FirstNameFresh(xs, rest);
      assert xs == [xs[0]] + xs[1..];
      InsertEntry(xs[0], rest)
  }

  /** Strings in strictly increasing order, hence without repetition. */
  predicate Sorted(xs: seq<string>)
  {
    forall j, k :: 0 <= j < k < |xs| ==> Below(xs[j], xs[k])
  }

  function InsertName(x: string, xs: seq<string>): (r: seq<string>)
    requires Sorted(xs)
    ensures Sorted(r) && forall y :: y in r <==> y == x || y in xs
  {
    if xs == [] then [x]
    else if x == xs[0] then xs
    else if Below(x, xs[0]) then
      assert forall k :: 0 < k < |xs| ==> Below(x, xs[k]) by {
        forall k | 0 < k < |xs| ensures Below(x, xs[k]) {
          BelowTransitive(x, xs[0], xs[k]);
        }
      }
      [x] + xs
    else
      BelowTotal(x, xs[0]);
      var rest := InsertName(x, xs[1..]);
      assert xs == [xs[0]] + xs[1..];
      assert forall k :: 0 <= k < |rest| ==> Below(xs[0], rest[k]) by {
        forall k | 0 <= k < |rest| ensures Below(xs[0], rest[k]) {
          assert rest[k] in rest;
          if rest[k] != x {
            var i :| 0 <= i < |xs[1..]| && xs[1..][i] == rest[k];
            assert xs[i + 1] == rest[k];
          }
        }
      }
      [xs[0]] + rest
  }

  /** `sorted({...})`: the distinct names of the documents, in order. */
  function SourceFiles(docs: seq<Document>): (r: seq<string>)
    ensures Sorted(r)
    ensures forall f :: f in r <==> exists d :: d in docs && d.file == f
  {
    if docs == [] then []
    else
      var rest := SourceFiles(docs[1..]);
      assert docs == [docs[0]] + docs[1..];
      InsertName(docs[0].file, rest)
  }

  // ------------------------------------------------------------ the builder

  /** The documents of one file appended to `docs`, with `doc_freq`
      kept in step: the body of `build_documents` for a readable file. */
  method AddFile(e: Entry, docs: seq<Document>, df: map<string, nat>)
      returns (docs': seq<Document>, df': map<string, nat>)
    requires Readable(e) && PyStrip(e.raw) != []
    requires df == DocFreq(docs, |docs|)
    ensures docs' == docs + FileDocuments(e)
    ensures df' == DocFreq(docs', |docs'|)
  {
    var lines := SplitLines(e.raw);
    var ps := Paragraphs(e.raw);
    docs', df' := AddPassages(e, lines, ps, TokensOf(ps), docs, df);
  }

  /** The state of the inner loop after `idx` paragraphs: `docs'` holds
      their documents after `docs`, and `df'` is `doc_freq` over all. */
  predicate Built(e: Entry, lines: seq<string>, ps: seq<string>, toks: seq<seq<string>>,
                  docs: seq<Document>, idx: nat, docs': seq<Document>, df': map<string, nat>)
  {
    idx <= |ps| == |toks| && docs' == docs + Passages(e, lines, ps, toks, idx)
    && df' == DocFreq(docs', |docs'|)
  }

  /** The inner loop of `build_documents`: one document per paragraph
      with tokens, numbered by the paragraph's index. */
  method AddPassages(e: Entry, lines: seq<string>, ps: seq<string>, ghost toks: seq<seq<string>>,
                     docs: seq<Document>, df: map<string, nat>)
      returns (docs': seq<Document>, df': map<string, nat>)
    requires toks == TokensOf(ps)
    requires df == DocFreq(docs, |docs|)
    ensures Built(e, lines, ps, toks, docs, |ps|, docs', df')
  {
    docs', df' := docs, df;
    var idx := 0;
    assert Passages(e, lines, ps, toks, 0) == [];
    while idx < |ps|
      invariant Built(e, lines, ps, toks, docs, idx, docs', df')
    {
      ghost var before, dfBefore := docs', df';
      docs', df' := AddParagraph(e, lines, ps, toks, idx, docs', df');
      BuiltStep(e, lines, ps, toks, docs, idx, before, dfBefore, docs', df');
      idx := idx + 1;
    }
  }

  /** The document of paragraph `idx`: its id, file, section, text,
      tokens and term counts. */
  method MakeDocument(e: Entry, lines: seq<string>, idx: nat, para: string, ts: seq<string>)
      returns (d: Document)
    ensures d == Passage(e, lines, idx, para, ts)
  {
    var counts, order := CountTerms(ts);
    var section := DetectSection(Take(lines, idx + 1));
    d := Document(Id(Stem(e.name), idx), e.name, section, para, ts, counts, order);
  }

  /** One step of the inner loop: the document of paragraph `idx`, if it
      has tokens, appended with `doc_freq` in step. */
  method AddParagraph(e: Entry, lines: seq<string>, ps: seq<string>, ghost toks: seq<seq<string>>,
                      idx: nat, docs: seq<Document>, df: map<string, nat>)
      returns (docs': seq<Document>, df': map<string, nat>)
    requires toks == TokensOf(ps) && idx < |ps|
    requires df == DocFreq(docs, |docs|)
    ensures docs' == docs + PassageOf(e, lines, ps, toks, idx)
    ensures df' == DocFreq(docs', |docs'|)
  {
    docs', df' := docs, df;
    var para := ps[idx];
    var ts := Tokenize(para);
    assert ts == toks[idx];
    if ts != [] {
      var d := MakeDocument(e, lines, idx, para, ts);
      df' := AddDocFreq(df, d.order);
      DocFreqSnoc(docs, d);
      docs' := docs + [d];
    }
  }

  /** Appending what paragraph `idx` contributes keeps the loop state. */
  lemma BuiltStep(e: Entry, lines: seq<string>, ps: seq<string>, toks: seq<seq<string>>,
                  docs: seq<Document>, idx: nat, docs': seq<Document>, df': map<string, nat>,
                  docs'': seq<Document>, df'': map<string, nat>)
    requires idx < |ps| && Built(e, lines, ps, toks, docs, idx, docs', df')
    requires docs'' == docs' + PassageOf(e, lines, ps, toks, idx)
    requires df'' == DocFreq(docs'', |docs''|)
    ensures Built(e, lines, ps, toks, docs, idx + 1, docs'', df'')
  {
    PassagesGrow(e, lines, ps, toks, docs, idx);
  }

  /** `build_documents` over a listing of the manuscript directory:
      returns the documents and `doc_freq`. */
  method BuildDocuments(entries: seq<Entry>) returns (docs: seq<Document>, df: map<string, nat>)
    requires UniqueNames(entries)
    ensures docs == Documents(SortEntries(entries), |entries|)
    ensures df == DocFreq(docs, |docs|)
  {
    var listing := SortEntries(entries);
    docs, df := [], map[];
    var i := 0;
    while i < |listing|
      invariant i <= |listing|
      invariant docs == Documents(listing, i) && df == DocFreq(docs, |docs|)
    {
      assert Documents(listing, i + 1) == docs + FileDocuments(listing[i]);
      docs, df := AddEntry(listing[i], docs, df);
      i := i + 1;
    }
  }

  /** One step of the outer loop: skip what is not a file, has another
      suffix or is blank, else add the file's documents. */
  method AddEntry(e: Entry, docs: seq<Document>, df: map<string, nat>)
      returns (docs': seq<Document>, df': map<string, nat>)
    requires df == DocFreq(docs, |docs|)
    ensures docs' == docs + FileDocuments(e)
    ensures df' == DocFreq(docs', |docs'|)
  {
    docs', df' := docs, df;
    if e.isFile {
      var ext := Lower(Suffix(e.name));
      if ext in Extensions && PyStrip(e.raw) != [] {
        docs', df' := AddFile(e, docs, df);
      }
    }
  }

  /** The `meta` block of the index. */
  datatype Meta = Meta(totalPassages: nat, sourceFiles: seq<string>, stopwords: nat)

  /** `meta` as `main` writes it: the number of passages, the sorted names
      of the files that gave at least one passage, and the size of the
      stop-word list. */
  function IndexMeta(docs: seq<Document>): (m: Meta)
    ensures m.totalPassages == |docs| && m.stopwords == |Stopwords|
    ensures Sorted(m.sourceFiles)
    ensures forall f :: f in m.sourceFiles <==> exists d :: d in docs && d.file == f
  {
    Meta(|docs|, SourceFiles(docs), |Stopwords|)
  }
}
