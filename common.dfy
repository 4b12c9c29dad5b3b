/** Shared vocabulary of the dashboard model: an optional value, ASCII
    case mapping, the whitespace sets of JavaScript and Python, trimming,
    prefix/suffix/substring search and decimal rendering of naturals. */
module Common {

  datatype Option<T> = None | Some(value: T)

  // ---------------------------------------------------------------- characters

  predicate IsAsciiUpper(c: char) { 'A' <= c <= 'Z' }
  predicate IsAsciiLower(c: char) { 'a' <= c <= 'z' }
  predicate IsAsciiLetter(c: char) { IsAsciiUpper(c) || IsAsciiLower(c) }
  predicate IsDigit(c: char) { '0' <= c <= '9' }

  /** ASCII lower-casing of one character; every other character is kept. */
  function LowerChar(c: char): char
  {
    if IsAsciiUpper(c) then (c as int + 32) as char else c
  }

  /** Character-wise lower-casing (`toLowerCase()` / `str.lower()` on ASCII). */
  function Lower(s: string): (r: string)
    ensures |r| == |s|
    ensures forall i :: 0 <= i < |s| ==> r[i] == LowerChar(s[i])
  {
    seq(|s|, i requires 0 <= i < |s| => LowerChar(s[i]))
  }

  /** The first `n` parts of `xss`, concatenated in order. */
  function Flatten<T>(xss: seq<seq<T>>, n: nat): seq<T>
    requires n <= |xss|
  {
    if n == 0 then [] else Flatten(xss, n - 1) + xss[n - 1]
  }

  /** Whatever is in the concatenation is in one of the parts. */
  lemma {:induction false} FlattenFrom<T>(xss: seq<seq<T>>, n: nat, x: T)
    requires n <= |xss| && x in Flatten(xss, n)
    ensures exists i :: 0 <= i < n && x in xss[i]
  {
    assert x in Flatten(xss, n - 1) || x in xss[n - 1];
    if x in Flatten(xss, n - 1) {
      FlattenFrom(xss, n - 1, x);
    }
  }

  /** Whatever is in one of the first `n` parts is in the concatenation. */
  lemma {:induction false} FlattenHave<T>(xss: seq<seq<T>>, n: nat, i: nat, x: T)
    requires i < n <= |xss| && x in xss[i]
    ensures x in Flatten(xss, n)
  {
    if i < n - 1 {
      FlattenHave(xss, n - 1, i, x);
    }
    assert x in Flatten(xss, n - 1) + xss[n - 1];
  }

  /** Characters removed by JavaScript's `String.prototype.trim`
      (WhiteSpace and LineTerminator of ECMA-262). */
  predicate IsJsSpace(c: char)
  {
    c == '\t' || c == '\n' || c == '\U{000B}' || c == '\U{000C}' || c == '\r' || c == ' '
    || c == '\U{00A0}' || c == '\U{1680}' || ('\U{2000}' <= c <= '\U{200A}')
    || c == '\U{2028}' || c == '\U{2029}' || c == '\U{202F}' || c == '\U{205F}'
    || c == '\U{3000}' || c == '\U{FEFF}'
  }

  /** Characters for which Python's `str.isspace()` holds; the same set is
      used by `str.split()`, `str.strip()` and the regular-expression `\s`. */
  predicate IsPySpace(c: char)
  {
    c == '\t' || c == '\n' || c == '\U{000B}' || c == '\U{000C}' || c == '\r'
    || ('\U{001C}' <= c <= '\U{001F}') || c == ' ' || c == '\U{0085}' || c == '\U{00A0}'
    || c == '\U{1680}' || ('\U{2000}' <= c <= '\U{200A}') || c == '\U{2028}' || c == '\U{2029}'
    || c == '\U{202F}' || c == '\U{205F}' || c == '\U{3000}'
  }

  predicate AllSpace(s: string, ws: char -> bool)
  {
    forall i :: 0 <= i < |s| ==> ws(s[i])
  }

  // ---------------------------------------------------------------- trimming

  /** Number of leading characters of `s` that satisfy `ws`. */
  function LeadingCount(s: string, ws: char -> bool): (k: nat)
    ensures k <= |s|
    ensures forall i :: 0 <= i < k ==> ws(s[i])
    ensures k < |s| ==> !ws(s[k])
  {
    if s == [] || !ws(s[0]) then 0 else 1 + LeadingCount(s[1..], ws)
  }

  /** Number of trailing characters of `s` that satisfy `ws`. */
  function TrailingCount(s: string, ws: char -> bool): (k: nat)
    ensures k <= |s|
    ensures forall i :: |s| - k <= i < |s| ==> ws(s[i])
    ensures k < |s| ==> !ws(s[|s| - k - 1])
  {
    if s == [] || !ws(s[|s| - 1]) then 0 else 1 + TrailingCount(s[..|s| - 1], ws)
  }

  /** `s` without its leading `ws` characters. */
  function TrimStart(s: string, ws: char -> bool): (r: string)
    ensures |r| <= |s|
    ensures r != [] ==> !ws(r[0])
  {
    if s != [] && ws(s[0]) then TrimStart(s[1..], ws) else s
  }

  /** `s` without its trailing `ws` characters. */
  function TrimEnd(s: string, ws: char -> bool): (r: string)
    ensures |r| <= |s|
    ensures r != [] ==> !ws(r[|r| - 1])
  {
    if s != [] && ws(s[|s| - 1]) then TrimEnd(s[..|s| - 1], ws) else s
  }

  lemma {:induction false} TrimStartIsSuffix(s: string, ws: char -> bool)
    ensures TrimStart(s, ws) == s[LeadingCount(s, ws)..]
  {
    if s != [] && ws(s[0]) {
      TrimStartIsSuffix(s[1..], ws);
      assert s[1..][LeadingCount(s[1..], ws)..] == s[1 + LeadingCount(s[1..], ws)..];
    }
  }

  lemma {:induction false} TrimEndIsPrefix(s: string, ws: char -> bool)
    ensures TrimEnd(s, ws) == s[..|s| - TrailingCount(s, ws)]
  {
    if s != [] && ws(s[|s| - 1]) {
      var p := s[..|s| - 1];
      TrimEndIsPrefix(p, ws);
      assert p[..|p| - TrailingCount(p, ws)] == s[..|p| - TrailingCount(p, ws)];
    }
  }

  /** `s` with every leading and trailing `ws` character removed. */
  function Trim(s: string, ws: char -> bool): (r: string)
    ensures |r| <= |s|
  {
    TrimEnd(TrimStart(s, ws), ws)
  }

  lemma {:induction false} TrimStartEmpty(s: string, ws: char -> bool)
    ensures TrimStart(s, ws) == [] ==> AllSpace(s, ws)
  {
    if s != [] && ws(s[0]) {
      TrimStartEmpty(s[1..], ws);
      assert forall i :: 1 <= i < |s| ==> s[i] == s[1..][i - 1];
    }
  }

  lemma {:induction false} TrimEndKeeps(s: string, ws: char -> bool)
    ensures TrimEnd(s, ws) == [] ==> AllSpace(s, ws)
    ensures TrimEnd(s, ws) != [] ==> TrimEnd(s, ws)[0] == s[0]
  {
    if s != [] && ws(s[|s| - 1]) {
      var p := s[..|s| - 1];
      TrimEndKeeps(p, ws);
      assert forall i :: 0 <= i < |p| ==> s[i] == p[i];
    }
  }

  /** Nothing but spaces trims to nothing, and what is left starts and ends
      with a character that is not a space. */
  lemma TrimEdges(s: string, ws: char -> bool)
    ensures Trim(s, ws) == [] ==> AllSpace(s, ws)
    ensures var t := Trim(s, ws); |t| > 0 ==> !ws(t[0]) && !ws(t[|t| - 1])
  {
    var rest := TrimStart(s, ws);
    TrimStartEmpty(s, ws);
    TrimEndKeeps(rest, ws);
    TrimStartIsSuffix(s, ws);
  }

  lemma {:induction false} TrimStartAllSpace(s: string, ws: char -> bool)
    requires AllSpace(s, ws)
    ensures TrimStart(s, ws) == []
  {
    if s != [] {
      assert AllSpace(s[1..], ws) by {
        assert forall i :: 0 <= i < |s| - 1 ==> s[1..][i] == s[i + 1];
      }
      TrimStartAllSpace(s[1..], ws);
    }
  }

  /** A text trims to nothing exactly when it is all spaces. */
  lemma TrimEmpty(s: string, ws: char -> bool)
    ensures Trim(s, ws) == [] <==> AllSpace(s, ws)
  {
    TrimEdges(s, ws);
    if AllSpace(s, ws) {
      TrimStartAllSpace(s, ws);
    }
  }

  /** The trimmed text is the slice that starts after the leading run. */
  lemma TrimIsSlice(s: string, ws: char -> bool)
    ensures LeadingCount(s, ws) + |Trim(s, ws)| <= |s|
    ensures Trim(s, ws) == s[LeadingCount(s, ws)..LeadingCount(s, ws) + |Trim(s, ws)|]
  {
    var rest := TrimStart(s, ws);
    TrimStartIsSuffix(s, ws);
    TrimEndIsPrefix(rest, ws);
  }

  /** Only spaces are removed, from the two ends. */
  lemma TrimSpec(s: string, ws: char -> bool)
    ensures exists a :: 0 <= a <= |s| - |Trim(s, ws)| && s[a..a + |Trim(s, ws)|] == Trim(s, ws)
                        && AllSpace(s[..a], ws) && AllSpace(s[a + |Trim(s, ws)|..], ws)
  {
    var rest := TrimStart(s, ws);
    TrimStartIsSuffix(s, ws);
    TrimEndIsPrefix(rest, ws);
    var a := LeadingCount(s, ws);
    var r := Trim(s, ws);
    var b := TrailingCount(rest, ws);
    var head, tail := s[..a], s[a + |r|..];
    assert s[a..a + |r|] == r;
    assert AllSpace(head, ws);
    assert AllSpace(tail, ws) by {
      forall i | 0 <= i < |tail| ensures ws(tail[i]) {
        assert tail[i] == rest[|r| + i];
      }
    }
  }

  /** JavaScript `trim()`. */
  function JsTrim(s: string): string { Trim(s, IsJsSpace) }

  /** Python `str.strip()` with no argument. */
  function PyStrip(s: string): string { Trim(s, IsPySpace) }

  // ---------------------------------------------------------------- searching

  /** JavaScript `startsWith` / Python `str.startswith`. */
  predicate StartsWith(s: string, prefix: string)
  {
    |prefix| <= |s| && s[..|prefix|] == prefix
  }

  /** JavaScript `endsWith` / Python `str.endswith`. */
  predicate EndsWith(s: string, suffix: string)
  {
    |suffix| <= |s| && s[|s| - |suffix|..] == suffix
  }

  /** `t` occurs in `s` starting at index `i`. */
  predicate OccursAt(s: string, t: string, i: int)
  {
    0 <= i && i + |t| <= |s| && s[i..i + |t|] == t
  }

  /** An occurrence that lies inside a slice is an occurrence in it. */
  lemma OccursInSlice(s: string, t: string, a: nat, j: nat, i: nat)
    requires a <= j <= |s| && OccursAt(s, t, a + i) && a + i + |t| <= j
    ensures OccursAt(s[a..j], t, i)
  {
    var p := s[a..j];
    forall q | 0 <= q < |t| ensures p[i..i + |t|][q] == t[q] {
      assert p[i + q] == s[a + i + q];
    }
  }

  /** JavaScript `includes` / Python `in` on strings. */
  predicate Contains(s: string, t: string)
  {
    exists i :: 0 <= i <= |s| - |t| && OccursAt(s, t, i)
  }

  /** First index at or after `k` where `t` occurs in `s`, or -1. */
  function IndexFrom(s: string, t: string, k: nat): (r: int)
    ensures r == -1 || (k <= r && r + |t| <= |s|)
    decreases |s| - k
  {
    if k + |t| > |s| then -1
    else if s[k..k + |t|] == t then k
    else IndexFrom(s, t, k + 1)
  }

  /** `IndexFrom` finds an occurrence, and no earlier one at or after `k`. */
  lemma {:induction false} IndexFromSpec(s: string, t: string, k: nat)
    ensures var r := IndexFrom(s, t, k);
            (r == -1 || OccursAt(s, t, r))
            && (r == -1 ==> forall i :: k <= i ==> !OccursAt(s, t, i))
            && (r != -1 ==> forall i :: k <= i < r ==> !OccursAt(s, t, i))
    decreases |s| - k
  {
    if k + |t| <= |s| && s[k..k + |t|] != t {
      IndexFromSpec(s, t, k + 1);
    }
  }

  /** JavaScript `indexOf`: the first occurrence, or -1 when there is none. */
  function IndexOf(s: string, t: string): (r: int)
    ensures r == -1 || r + |t| <= |s|
  {
    IndexFrom(s, t, 0)
  }

  lemma IndexOfSpec(s: string, t: string)
    ensures IndexOf(s, t) == -1 <==> !Contains(s, t)
    ensures IndexOf(s, t) != -1 ==>
      OccursAt(s, t, IndexOf(s, t)) && forall i :: 0 <= i < IndexOf(s, t) ==> !OccursAt(s, t, i)
  {
    IndexFromSpec(s, t, 0);
  }

  lemma ContainsEmpty(s: string)
    ensures Contains(s, "")
  {
    assert OccursAt(s, "", 0);
  }

  // ---------------------------------------------------------------- decimals

  function DigitChar(d: nat): char
    requires d < 10
  {
    ('0' as int + d) as char
  }

  /** Decimal rendering of a natural number, as `${n}` / f"{n}" produce. */
  function NatToString(n: nat): (r: string)
    ensures r != [] && forall i :: 0 <= i < |r| ==> IsDigit(r[i])
    ensures n >= 10 ==> r[0] != '0'
  {
    if n < 10 then [DigitChar(n)] else NatToString(n / 10) + [DigitChar(n % 10)]
  }

  function DigitOf(c: char): nat
    requires IsDigit(c)
  {
    c as int - '0' as int
  }

  /** Value of a string of decimal digits. */
  function DigitsValue(s: string): nat
    requires forall i :: 0 <= i < |s| ==> IsDigit(s[i])
  {
    if s == [] then 0 else 10 * DigitsValue(s[..|s| - 1]) + DigitOf(s[|s| - 1])
  }

  lemma {:induction false} DigitsRoundTrip(n: nat)
    ensures DigitsValue(NatToString(n)) == n
  {
    if n >= 10 {
      DigitsRoundTrip(n / 10);
      var s := NatToString(n);
      assert s[..|s| - 1] == NatToString(n / 10);
    }
  }

  lemma NatToStringInjective(m: nat, n: nat)
    requires NatToString(m) == NatToString(n)
    ensures m == n
  {
    DigitsRoundTrip(m);
    DigitsRoundTrip(n);
  }

  // ---------------------------------------------------------------- ordering

  /** `a < b` on strings as Python and JavaScript compare them: code point
      by code point, a proper prefix coming first. */
  predicate Below(a: string, b: string)
  {
    if a == [] then b != []
    else if b == [] then false
    else if a[0] != b[0] then a[0] < b[0]
    else Below(a[1..], b[1..])
  }

  lemma {:induction false} BelowIrreflexive(a: string)
    ensures !Below(a, a)
  {
    if a != [] {
      BelowIrreflexive(a[1..]);
    }
  }

  /** Two different strings are ordered one way or the other, never both. */
  lemma {:induction false} BelowTotal(a: string, b: string)
    ensures a != b ==> Below(a, b) || Below(b, a)
    ensures !(Below(a, b) && Below(b, a))
  {
    if a != [] && b != [] && a[0] == b[0] {
      BelowTotal(a[1..], b[1..]);
      if a != b {
        assert a == [a[0]] + a[1..] && b == [b[0]] + b[1..];
      }
    }
  }

  lemma {:induction false} BelowTransitive(a: string, b: string, c: string)
    requires Below(a, b) && Below(b, c)
    ensures Below(a, c)
  {
    if a != [] && a[0] == b[0] && b[0] == c[0] {
      BelowTransitive(a[1..], b[1..], c[1..]);
    }
  }
}
