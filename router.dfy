/** The development-server router of router.php: requests whose path starts
    with '/api/' run a script of the api directory named by the rest of the
    path; every other request is left to the server's static handling.

    Whether a file exists is a parameter: the set of paths, relative to the
    project root, for which `file_exists` answers true. */
module Router {
  import opened Wrappers
  import opened Text

  /** The path component of a request URI: everything before the first '?'
      or '#'. */
  function UriPath(uri: string): (p: string)
    ensures StartsWith(uri, p) && '?' !in p && '#' !in p
    ensures |p| == |uri| || uri[|p|] == '?' || uri[|p|] == '#'
    decreases |uri|
  {
    if uri == [] || uri[0] == '?' || uri[0] == '#' then []
    else
      var rest := UriPath(uri[1..]);
      assert uri[1..][..|rest|] == uri[1..|rest| + 1];
      [uri[0]] + rest
  }

  /** A path with nothing after it, or followed by a query or fragment, is
      the path of the URI. */
  lemma {:induction false} UriPathOf(path: string, tail: string)
    requires '?' !in path && '#' !in path
    requires tail == [] || tail[0] == '?' || tail[0] == '#'
    ensures UriPath(path + tail) == path
    decreases |path|
  {
    if path == [] {
      assert path + tail == tail;
    } else {
      assert (path + tail)[1..] == path[1..] + tail;
      UriPathOf(path[1..], tail);
      assert [path[0]] + path[1..] == path;
    }
  }

  /** The endpoint name: every '/api/' removed, then surrounding slashes
      trimmed, so a name never starts or ends with '/'; a path without
      '/api/' is only trimmed. */
  function Endpoint(path: string): (r: string)
    ensures r == [] || (r[0] != '/' && r[|r| - 1] != '/')
    ensures !Contains(path, "/api/") ==> r == Trim(path, {'/'})
  {
    assert !Contains(path, "/api/") ==> ReplaceAll(path, "/api/", "") == path by {
      if !Contains(path, "/api/") {
        ReplaceAbsent(path, "/api/", "");
      }
    }
    Trim(ReplaceAll(path, "/api/", ""), {'/'})
  }

  /** The script an endpoint names, with '.php' added unless present. */
  function ApiFile(endpoint: string): (f: string)
    ensures StartsWith(f, "api/") && EndsWith(f, ".php")
  {
    var f := "api/" + endpoint + (if EndsWith(endpoint, ".php") then "" else ".php");
    assert f[..4] == "api/";
    if EndsWith(endpoint, ".php") then
      assert f[|f| - 4..] == endpoint[|endpoint| - 4..];
      f
    else
      assert f[|f| - 4..] == ".php";
      f
  }

  /** What the router does with a request. */
  datatype Routed = Static | Script(file: string) | NotFound

  /** router.php. An API path runs its script when the file exists and
      answers 404 'API endpoint not found' otherwise; only PHP scripts of
      the api directory, as the path names them, are ever run. */
  function Route(uri: string, files: set<string>): (r: Routed)
    ensures r == Static <==> !StartsWith(UriPath(uri), "/api/")
    ensures r.Script? ==> r.file in files && StartsWith(r.file, "api/") && EndsWith(r.file, ".php")
    ensures r.Script? ==> r.file == ApiFile(Endpoint(UriPath(uri)))
    ensures r == NotFound <==> StartsWith(UriPath(uri), "/api/") && ApiFile(Endpoint(UriPath(uri))) !in files
  {
    var path := UriPath(uri);
    if !StartsWith(path, "/api/") then Static
    else
      var file := ApiFile(Endpoint(path));
      if file in files then Script(file) else NotFound
  }

  /** A plain name: no slash, no query or fragment mark. */
  predicate PlainName(name: string) {
    name != [] && '/' !in name && '?' !in name && '#' !in name
  }

  /** Removing a leading search string in front of text that cannot begin
      another occurrence leaves that text. */
  lemma RemoveLeading(p: string, name: string, slash: string)
    requires |p| > 1 && p[0] !in name && |slash| <= 1
    ensures ReplaceAll(p + (name + slash), p, "") == name + slash
  {
    ReplaceAtFront(p, name + slash, "");
    ReplaceSkipsLiteral(name, slash, p, "");
    assert ReplaceAll(slash, p, "") == slash;
    assert "" + (name + slash) == name + slash;
  }

  /** A plain name with one trailing slash trims to the name. */
  lemma TrimTrailingSlash(name: string)
    requires PlainName(name)
    ensures Trim(name + "/", {'/'}) == name
  {
    var s := name + "/";
    assert s[0] == name[0];
    assert TrimLeft(s, {'/'}) == s;
    assert s[..|s| - 1] == name;
    assert TrimRight(name, {'/'}) == name;
  }

  /** '/api/name', with or without a trailing slash, names the endpoint
      `name`. */
  lemma EndpointOfName(name: string, slash: string)
    requires PlainName(name) && (slash == "" || slash == "/")
    ensures Endpoint("/api/" + name + slash) == name
  {
    assert "/api/" + name + slash == "/api/" + (name + slash);
    RemoveLeading("/api/", name, slash);
    if slash == "/" {
      TrimTrailingSlash(name);
    } else {
      assert name + slash == name;
      TrimKeeps(name, {'/'});
    }
  }

  /** The route of a plain API path. */
  lemma PlainPathRoutes(name: string, tail: string, files: set<string>)
    requires PlainName(name)
    requires tail == [] || tail[0] == '?' || tail[0] == '#'
    ensures Route("/api/" + name + tail, files) == if ApiFile(name) in files then Script(ApiFile(name)) else NotFound
  {
    UriPathOf("/api/" + name, tail);
    assert ("/api/" + name)[..5] == "/api/";
    EndpointOfName(name, "");
    assert "/api/" + name + "" == "/api/" + name;
  }

  /** A name and the same name with '.php' name the same script. */
  lemma ApiFileOfName(name: string)
    requires !EndsWith(name, ".php")
    ensures ApiFile(name) == "api/" + name + ".php"
    ensures ApiFile(name + ".php") == "api/" + name + ".php"
  {
    var dotted := name + ".php";
    assert dotted[|dotted| - 4..] == ".php";
    assert "api/" + dotted + "" == "api/" + name + ".php";
  }

  /** Adding '.php' keeps a name plain. */
  lemma DottedPlain(name: string)
    requires PlainName(name)
    ensures PlainName(name + ".php")
  {
    var dotted := name + ".php";
    forall i | 0 <= i < |dotted| ensures dotted[i] != '/' && dotted[i] != '?' && dotted[i] != '#' {
      if i >= |name| {
        assert dotted[i] in ".php";
      } else {
        assert dotted[i] == name[i];
      }
    }
  }

  /** A request for '/api/name', with any query, runs api/name.php when it
      exists, and so does '/api/name.php'. */
  lemma NamedEndpointRoutes(name: string, tail: string, files: set<string>)
    requires PlainName(name) && !EndsWith(name, ".php")
    requires tail == [] || tail[0] == '?' || tail[0] == '#'
    ensures Route("/api/" + name + tail, files) == if "api/" + name + ".php" in files then Script("api/" + name + ".php") else NotFound
    ensures Route("/api/" + name + ".php" + tail, files) == Route("/api/" + name + tail, files)
  {
    PlainPathRoutes(name, tail, files);
    ApiFileOfName(name);
    DottedRoutesSame(name, tail, files);
  }

  /** '/api/name.php' routes as '/api/name' does. */
  lemma DottedRoutesSame(name: string, tail: string, files: set<string>)
    requires PlainName(name) && !EndsWith(name, ".php")
    requires tail == [] || tail[0] == '?' || tail[0] == '#'
    ensures Route("/api/" + name + ".php" + tail, files) == Route("/api/" + name + tail, files)
  {
    var dotted := name + ".php";
    DottedPlain(name);
    assert "/api/" + name + ".php" + tail == "/api/" + dotted + tail;
    PlainPathRoutes(dotted, tail, files);
    PlainPathRoutes(name, tail, files);
    ApiFileOfName(name);
  }

  /** Every occurrence of '/api/' is removed, not only the leading one:
      '/api/a/api/b' names the endpoint 'ab'. */
  lemma InnerApiSegmentsRemoved(a: string, b: string)
    requires PlainName(a) && PlainName(b)
    ensures Endpoint("/api/" + a + "/api/" + b) == a + b
  {
    var p := "/api/";
    assert "/api/" + a + "/api/" + b == p + (a + (p + b));
    ReplaceAtFront(p, a + (p + b), "");
    ReplaceSkipsLiteral(a, p + b, p, "");
    ReplaceAtFront(p, b, "");
    ReplaceSkipsLiteral(b, "", p, "");
    assert b + "" == b;
    assert "" + (a + ("" + b)) == a + b;
    TrimKeeps(a + b, {'/'});
  }
}
