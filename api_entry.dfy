/** The front controller of public/api.php: the request path, stripped of
    '/api/', '/api' and surrounding slashes, is looked up in a fixed table
    of five endpoints; anything else is answered with 404 'Endpoint not
    found'. */
module ApiEntry {
  import opened Wrappers
  import opened Text
  import Router

  /** The endpoints of the route table. */
  const Endpoints: set<string> := {"settings", "issues", "analyze", "launch", "callback"}

  /** The route table, as paths relative to the project root: each endpoint
      runs the script of its name in the api directory. */
  const Routes: map<string, string> := map e | e in Endpoints :: "api/" + e + ".php"

  /** The endpoint name of a path: every '/api/' removed, then every '/api',
      then surrounding slashes trimmed, so a name never starts or ends with
      '/'; a path without '/api' is only trimmed. */
  function Endpoint(path: string): (r: string)
    ensures r == [] || (r[0] != '/' && r[|r| - 1] != '/')
    ensures !Contains(path, "/api/") && !Contains(path, "/api") ==> r == Trim(path, {'/'})
  {
    assert !Contains(path, "/api/") && !Contains(path, "/api") ==>
             ReplaceAll(ReplaceAll(path, "/api/", ""), "/api", "") == path by {
      if !Contains(path, "/api/") && !Contains(path, "/api") {
        ReplaceAbsent(path, "/api/", "");
        ReplaceAbsent(path, "/api", "");
      }
    }
    Trim(ReplaceAll(ReplaceAll(path, "/api/", ""), "/api", ""), {'/'})
  }

  /** What the front controller does with a request. */
  datatype Dispatched = Run(file: string) | EndpointNotFound

  /** public/api.php: a request runs a script exactly when its endpoint
      name is one of the five table keys, and then the table's script. */
  function Dispatch(uri: string): (r: Dispatched)
    ensures r.Run? <==> Endpoint(Router.UriPath(uri)) in Routes
    ensures r.Run? ==> r.file == Routes[Endpoint(Router.UriPath(uri))] && r.file in Routes.Values
  {
    var endpoint := Endpoint(Router.UriPath(uri));
    if endpoint in Routes then Run(Routes[endpoint]) else EndpointNotFound
  }

  /** Each table key is a plain name of at most eight characters whose
      script is api/key.php. */
  lemma RouteKeys(name: string)
    requires name in Routes
    ensures Router.PlainName(name) && !EndsWith(name, ".php") && |name| <= 8
    ensures Routes[name] == "api/" + name + ".php"
  {
    KeyPlain(name);
  }

  /** The facts about one table key. */
  lemma KeyPlain(name: string)
    requires name in Routes
    ensures Router.PlainName(name) && !EndsWith(name, ".php") && |name| <= 8
  {
    assert forall i :: 0 <= i < |name| ==> 'a' <= name[i] <= 'z' by {
      if name == "settings" {} else if name == "issues" {} else if name == "analyze" {} else if name == "launch" {} else {}
    }
    assert name[|name| - 4] != '.';
  }

  /** The endpoint name of '/api/name' is the name. */
  lemma EndpointOfPlain(name: string)
    requires Router.PlainName(name)
    ensures Endpoint("/api/" + name) == name
  {
    assert "/api/" + name == "/api/" + (name + "");
    Router.RemoveLeading("/api/", name, "");
    ReplaceSkipsLiteral(name, "", "/api", "");
    assert name + "" == name;
    TrimKeeps(name, {'/'});
  }

  /** '/api/key', with any query or fragment, runs the key's script. */
  lemma TableEndpointsRun(name: string, tail: string)
    requires name in Routes
    requires tail == [] || tail[0] == '?' || tail[0] == '#'
    ensures Dispatch("/api/" + name + tail) == Run(Routes[name])
  {
    RouteKeys(name);
    Router.UriPathOf("/api/" + name, tail);
    EndpointOfPlain(name);
  }

  /** With '.php' added the name is no table key, so this controller
      answers 404 where the development router runs the script. */
  lemma PhpSuffixNotRouted(name: string, tail: string, files: set<string>)
    requires name in Routes && Routes[name] in files
    requires tail == [] || tail[0] == '?' || tail[0] == '#'
    ensures Dispatch("/api/" + name + ".php" + tail) == EndpointNotFound
    ensures Router.Route("/api/" + name + ".php" + tail, files) == Router.Script(Routes[name])
  {
    RouteKeys(name);
    var dotted := name + ".php";
    Router.DottedPlain(name);
    assert "/api/" + name + ".php" + tail == "/api/" + dotted + tail;
    Router.UriPathOf("/api/" + dotted, tail);
    EndpointOfPlain(dotted);
    if dotted in Routes {
      RouteKeys(dotted);
    }
    Router.NamedEndpointRoutes(name, tail, files);
  }

  /** Both routers send '/api/key' to the same script when it exists. */
  lemma RoutersAgree(name: string, tail: string, files: set<string>)
    requires name in Routes && Routes[name] in files
    requires tail == [] || tail[0] == '?' || tail[0] == '#'
    ensures Dispatch("/api/" + name + tail) == Run(Routes[name])
    ensures Router.Route("/api/" + name + tail, files) == Router.Script(Routes[name])
  {
    RouteKeys(name);
    TableEndpointsRun(name, tail);
    Router.NamedEndpointRoutes(name, tail, files);
  }
}
