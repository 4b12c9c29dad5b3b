/** The logging server's request routing: the site root is sent to the
    dashboard, and a directory path is completed with the first index
    file that exists. It chooses types and adds headers exactly as the
    development server does. Which request paths name an existing file is
    a parameter. */
module EnhancedServer {
  import opened Common
  import DevServer

  /** The index files tried for a directory path, in order. */
  const IndexFiles: seq<string> := ["index.html", "index.htm"]

  /** The path served for a request: `/` becomes `/dashboard/`; a path
      ending in `/` then gets the first index file that exists appended. */
  function Routed(path: string, existing: set<string>): string
  {
    var p := if path == "/" then "/dashboard/" else path;
    if !EndsWith(p, "/") then p
    else if p + IndexFiles[0] in existing then p + IndexFiles[0]
    else if p + IndexFiles[1] in existing then p + IndexFiles[1]
    else p
  }

  /** `do_GET`'s rewriting of `self.path`, with its loop over the index
      files. */
  method Route(path: string, existing: set<string>) returns (p: string)
    ensures p == Routed(path, existing)
  {
    p := path;
    if p == "/" {
      p := "/dashboard/";
    }
    if EndsWith(p, "/") {
      var dir := p;
      var i := 0;
      while i < |IndexFiles|
        invariant 0 <= i <= |IndexFiles|
        invariant p == dir
        invariant forall k :: 0 <= k < i ==> dir + IndexFiles[k] !in existing
      {
        if dir + IndexFiles[i] in existing {
          p := dir + IndexFiles[i];
          break;
        }
        i := i + 1;
      }
    }
  }

  /** The site root is served from the dashboard directory. */
  lemma RootServesDashboard(existing: set<string>)
    ensures StartsWith(Routed("/", existing), "/dashboard/")
  {
    var d := "/dashboard/";
    assert EndsWith(d, "/");
    assert (d + IndexFiles[0])[..|d|] == d;
    assert (d + IndexFiles[1])[..|d|] == d;
  }

  /** A directory path gets `index.html` when it exists, `index.htm` only
      when that one does not, and stays as it is when neither exists. */
  lemma IndexPreference(dir: string, existing: set<string>)
    requires dir != "/" && EndsWith(dir, "/")
    ensures dir + "index.html" in existing ==> Routed(dir, existing) == dir + "index.html"
    ensures dir + "index.html" !in existing && dir + "index.htm" in existing ==>
      Routed(dir, existing) == dir + "index.htm"
    ensures dir + "index.html" !in existing && dir + "index.htm" !in existing ==>
      Routed(dir, existing) == dir
  {
  }

  /** Any other path is served as requested. */
  lemma FilePathUnchanged(path: string, existing: set<string>)
    requires path != "/" && !EndsWith(path, "/")
    ensures Routed(path, existing) == path
  {
  }

  /** A `.json` file is typed as JSON, never as JavaScript, although `.js`
      is checked first. */
  lemma JsonIsNotJavaScript(path: string, library: string)
    requires EndsWith(path, ".json")
    ensures DevServer.GuessType(path, library) == DevServer.Json
    ensures DevServer.GuessType(path, library) != DevServer.JavaScript
  {
    DevServer.ExtensionGivesType(path, 3, library);
  }
}
