/** The development server's request handler: the MIME type chosen from a
    path's extension, and the cross-origin headers added to every
    response. The standard library's own type guess is a parameter. */
module DevServer {
  import opened Common

  const Html := "text/html; charset=UTF-8"
  const Css := "text/css; charset=UTF-8"
  const JavaScript := "application/javascript; charset=UTF-8"
  const Json := "application/json; charset=UTF-8"
  const Png := "image/png"
  const Jpeg := "image/jpeg"
  const Svg := "image/svg+xml"

  /** `guess_type`: case-sensitive suffix tests in a fixed order; a path
      matching none gets `library`, the standard handler's guess. */
  function GuessType(path: string, library: string): string
  {
    if EndsWith(path, ".html") then Html
    else if EndsWith(path, ".css") then Css
    else if EndsWith(path, ".js") then JavaScript
    else if EndsWith(path, ".json") then Json
    else if EndsWith(path, ".png") then Png
    else if EndsWith(path, ".jpg") || EndsWith(path, ".jpeg") then Jpeg
    else if EndsWith(path, ".svg") then Svg
    else library
  }

  /** The extensions with a type of their own, as a table. */
  const KnownTypes: seq<(string, string)> := [
    (".html", Html), (".css", Css), (".js", JavaScript), (".json", Json),
    (".png", Png), (".jpg", Jpeg), (".jpeg", Jpeg), (".svg", Svg)
  ]

  /** A reference definition: the type of the first table entry from `i`
      on whose extension ends the path, or `library`. */
  function Lookup(path: string, table: seq<(string, string)>, i: nat, library: string): string
    decreases |table| - i
  {
    if i >= |table| then library
    else if EndsWith(path, table[i].0) then table[i].1
    else Lookup(path, table, i + 1, library)
  }

  /** `Lookup` gives the type of the first matching entry. */
  lemma {:induction false} LookupFirst(path: string, table: seq<(string, string)>, i: nat, k: nat, library: string)
    requires i <= k < |table| && EndsWith(path, table[k].0)
    requires forall j :: i <= j < k ==> !EndsWith(path, table[j].0)
    ensures Lookup(path, table, i, library) == table[k].1
    decreases k - i
  {
    if i < k {
      LookupFirst(path, table, i + 1, k, library);
    }
  }

  /** `Lookup` gives `library` when no entry matches. */
  lemma {:induction false} LookupNone(path: string, table: seq<(string, string)>, i: nat, library: string)
    requires forall j :: i <= j < |table| ==> !EndsWith(path, table[j].0)
    ensures Lookup(path, table, i, library) == library
    decreases |table| - i
  {
    if i < |table| {
      LookupNone(path, table, i + 1, library);
    }
  }

  /** The chain of tests is the table lookup. */
  lemma GuessTypeIsLookup(path: string, library: string)
    ensures GuessType(path, library) == Lookup(path, KnownTypes, 0, library)
  {
    var t := KnownTypes;
    assert Lookup(path, t, 7, library) == if EndsWith(path, ".svg") then Svg else library;
    assert Lookup(path, t, 6, library) == if EndsWith(path, ".jpeg") then Jpeg else Lookup(path, t, 7, library);
    assert Lookup(path, t, 5, library) == if EndsWith(path, ".jpg") then Jpeg else Lookup(path, t, 6, library);
    assert Lookup(path, t, 4, library) == if EndsWith(path, ".png") then Png else Lookup(path, t, 5, library);
    assert Lookup(path, t, 3, library) == if EndsWith(path, ".json") then Json else Lookup(path, t, 4, library);
    assert Lookup(path, t, 2, library) == if EndsWith(path, ".js") then JavaScript else Lookup(path, t, 3, library);
    assert Lookup(path, t, 1, library) == if EndsWith(path, ".css") then Css else Lookup(path, t, 2, library);
  }

  /** The last two characters of a text of at least two. */
  function Tail2(s: string): string
    requires |s| >= 2
  {
    s[|s| - 2..]
  }

  lemma Tail2OfSuffix(path: string, ext: string)
    requires |ext| >= 2 && EndsWith(path, ext)
    ensures Tail2(path) == Tail2(ext)
  {
    assert path[|path| - |ext|..][|ext| - 2..] == path[|path| - 2..];
  }

  /** No two extensions of the table end alike, so the order of the tests
      does not matter: a path ending in one of them gets its type. */
  lemma ExtensionGivesType(path: string, k: nat, library: string)
    requires k < |KnownTypes| && EndsWith(path, KnownTypes[k].0)
    ensures GuessType(path, library) == KnownTypes[k].1
  {
    var t := KnownTypes;
    assert Tail2(t[0].0) == "ml" && Tail2(t[1].0) == "ss" && Tail2(t[2].0) == "js" && Tail2(t[3].0) == "on";
    assert Tail2(t[4].0) == "ng" && Tail2(t[5].0) == "pg" && Tail2(t[6].0) == "eg" && Tail2(t[7].0) == "vg";
    Tail2OfSuffix(path, t[k].0);
    forall j | 0 <= j < k
      ensures !EndsWith(path, t[j].0)
    {
      if EndsWith(path, t[j].0) {
        Tail2OfSuffix(path, t[j].0);
      }
    }
    LookupFirst(path, t, 0, k, library);
    GuessTypeIsLookup(path, library);
  }

  /** A path that ends in none of the extensions gets the library's type. */
  lemma UnknownExtension(path: string, library: string)
    requires forall k :: 0 <= k < |KnownTypes| ==> !EndsWith(path, KnownTypes[k].0)
    ensures GuessType(path, library) == library
  {
    LookupNone(path, KnownTypes, 0, library);
    GuessTypeIsLookup(path, library);
  }

  /** The tests are case-sensitive: an upper-case extension is not
      recognised. */
  lemma UpperCasePngFallsThrough(library: string)
    ensures GuessType("figure.PNG", library) == library
  {
    assert "figure.PNG"[10 - 4..] == ".PNG";
  }

  // ---------------------------------------------------------------- headers

  /** A response header: its name and value. */
  type Header = (string, string)

  /** The cross-origin headers. */
  const Cors: seq<Header> := [
    ("Access-Control-Allow-Origin", "*"),
    ("Access-Control-Allow-Methods", "GET, POST, OPTIONS"),
    ("Access-Control-Allow-Headers", "Content-Type")
  ]

  /** `end_headers`: the headers a response has sent, followed by the
      cross-origin ones, just before the header block is closed. */
  function EndHeaders(sent: seq<Header>): (r: seq<Header>)
    ensures |r| == |sent| + 3 && r[..|sent|] == sent
    ensures r[|sent|].0 == "Access-Control-Allow-Origin" && r[|sent|].1 == "*"
    ensures forall h :: h in Cors ==> h in r
    ensures r[|sent|..] == Cors
  {
    sent + Cors
  }
}
