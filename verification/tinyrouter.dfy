/** The router of tinyrouter.go: an ordered, append-only list of routes, one
    registration function per HTTP verb, and the route selection `ServeHTTP` performs
    before it hands the request to a handler. Registration failures, which Go turns into
    a panic, are reported as a failed Result that adds no route. */
module TinyRouter {
  import opened Results
  import opened Pattern
  import opened Template
  import opened Routes

  /** The method names of Go's net/http package. */
  const MethodHead: string := "HEAD"
  const MethodGet: string := "GET"
  const MethodPost: string := "POST"
  const MethodPut: string := "PUT"
  const MethodPatch: string := "PATCH"
  const MethodDelete: string := "DELETE"
  const MethodOptions: string := "OPTIONS"
  const MethodConnect: string := "CONNECT"
  const MethodTrace: string := "TRACE"

  /** `TinyRouter`: the routes in registration order. */
  datatype Router = Router(routes: seq<Route>)

  /** What the default not-found handler writes. */
  datatype Response = Response(status: nat, body: string)

  const StatusNotFound: nat := 404

  /** The response of `DefaultNotFoundHandler`. */
  const NotFoundResponse: Response := Response(StatusNotFound, "Route Not Found")

  /** The handler `ServeHTTP` chose: a registered route's handler or the not-found one. */
  datatype Target = RouteHandler(id: HandlerId) | NotFoundHandler

  /** The handler chosen for a request and the bindings attached to the request. */
  datatype Dispatch = Dispatch(target: Target, params: Bindings)

  /** `New`: a router without routes. */
  function New(): (t: Router)
    ensures |t.routes| == 0
  {
    Router([])
  }

  /** `t'` is `t` with exactly one route for (verb, path, handler) appended. */
  predicate Appended(t: Router, t': Router, verb: string, path: string, handler: Handler)
  {
    && |t'.routes| == |t.routes| + 1
    && t'.routes[..|t.routes|] == t.routes
    && t'.routes[|t.routes|].verb == verb
    && t'.routes[|t.routes|].path == path
    && t'.routes[|t.routes|].handler == handler
  }

  /** `addRoute`: compile the template and append the route; a template that does not
      compile aborts the registration and adds nothing. */
  function AddRoute(t: Router, verb: string, path: string, handler: Handler): (r: Result<Router, RouteError>)
    ensures r.Success? <==> ValidTemplate(path)
    ensures r.Success? ==> Appended(t, r.value, verb, path, handler)
    ensures r.Success? ==> r.value.routes == t.routes + [NewRoute(verb, path, handler).value]
    ensures r.Failure? ==> r.error == NewRoute(verb, path, handler).error
  {
    var route :- NewRoute(verb, path, handler);
    assert (t.routes + [route])[..|t.routes|] == t.routes;
    Success(Router(t.routes + [route]))
  }

  function Head(t: Router, path: string, handler: Handler): (r: Result<Router, RouteError>)
    ensures r.Success? <==> ValidTemplate(path)
    ensures r.Success? ==> Appended(t, r.value, "HEAD", path, handler)
  {
    AddRoute(t, MethodHead, path, handler)
  }

  function Get(t: Router, path: string, handler: Handler): (r: Result<Router, RouteError>)
    ensures r.Success? <==> ValidTemplate(path)
    ensures r.Success? ==> Appended(t, r.value, "GET", path, handler)
  {
    AddRoute(t, MethodGet, path, handler)
  }

  function Post(t: Router, path: string, handler: Handler): (r: Result<Router, RouteError>)
    ensures r.Success? <==> ValidTemplate(path)
    ensures r.Success? ==> Appended(t, r.value, "POST", path, handler)
  {
    AddRoute(t, MethodPost, path, handler)
  }

  function Put(t: Router, path: string, handler: Handler): (r: Result<Router, RouteError>)
    ensures r.Success? <==> ValidTemplate(path)
    ensures r.Success? ==> Appended(t, r.value, "PUT", path, handler)
  {
    AddRoute(t, MethodPut, path, handler)
  }

  function Patch(t: Router, path: string, handler: Handler): (r: Result<Router, RouteError>)
    ensures r.Success? <==> ValidTemplate(path)
    ensures r.Success? ==> Appended(t, r.value, "PATCH", path, handler)
  {
    AddRoute(t, MethodPatch, path, handler)
  }

  function Delete(t: Router, path: string, handler: Handler): (r: Result<Router, RouteError>)
    ensures r.Success? <==> ValidTemplate(path)
    ensures r.Success? ==> Appended(t, r.value, "DELETE", path, handler)
  {
    AddRoute(t, MethodDelete, path, handler)
  }

  function Options(t: Router, path: string, handler: Handler): (r: Result<Router, RouteError>)
    ensures r.Success? <==> ValidTemplate(path)
    ensures r.Success? ==> Appended(t, r.value, "OPTIONS", path, handler)
  {
    AddRoute(t, MethodOptions, path, handler)
  }

  function Connect(t: Router, path: string, handler: Handler): (r: Result<Router, RouteError>)
    ensures r.Success? <==> ValidTemplate(path)
    ensures r.Success? ==> Appended(t, r.value, "CONNECT", path, handler)
  {
    AddRoute(t, MethodConnect, path, handler)
  }

  function Trace(t: Router, path: string, handler: Handler): (r: Result<Router, RouteError>)
    ensures r.Success? <==> ValidTemplate(path)
    ensures r.Success? ==> Appended(t, r.value, "TRACE", path, handler)
  {
    AddRoute(t, MethodTrace, path, handler)
  }

  /** Whether each route, in registration order, matches the request. */
  function Hits(routes: seq<Route>, verb: string, path: string): (h: seq<bool>)
    ensures |h| == |routes|
  {
    if |routes| == 0 then [] else [Match(routes[0], verb, path)] + Hits(routes[1..], verb, path)
  }

  /** Each entry of `Hits` is whether the route at that position matches. */
  lemma {:induction false} HitsAt(routes: seq<Route>, verb: string, path: string)
    ensures forall j :: 0 <= j < |routes| ==> Hits(routes, verb, path)[j] == Match(routes[j], verb, path)
  {
    if |routes| > 0 {
      HitsAt(routes[1..], verb, path);
      forall j | 0 < j < |routes|
        ensures Hits(routes, verb, path)[j] == Match(routes[j], verb, path)
      {
        assert routes[1..][j - 1] == routes[j];
      }
    }
  }

  /** The first position holding `true`: the loop of `ServeHTTP` that stops at its
      first match. */
  function FirstTrue(hits: seq<bool>): (r: Option<nat>)
    ensures r.Some? ==> r.value < |hits| && hits[r.value]
    ensures r.Some? ==> forall j :: 0 <= j < r.value ==> !hits[j]
    ensures r.None? ==> forall j :: 0 <= j < |hits| ==> !hits[j]
  {
    if |hits| == 0 then None
    else if hits[0] then Some(0)
    else match FirstTrue(hits[1..])
      case Some(i) => Some(i + 1)
      case None => None
  }

  /** A `true` with no `true` before it is the one `FirstTrue` finds. */
  lemma FirstTrueIs(hits: seq<bool>, i: nat)
    requires i < |hits| && hits[i]
    requires forall j :: 0 <= j < i ==> !hits[j]
    ensures FirstTrue(hits) == Some(i)
  {
    var f := FirstTrue(hits);
    assert f.Some?;
    assert !(f.value < i) && !(i < f.value);
  }

  /** The first `true` of a concatenation: in the first part if there is one there,
      otherwise in the second part, shifted. */
  lemma FirstTrueAppend(a: seq<bool>, b: seq<bool>)
    ensures FirstTrue(a).Some? ==> FirstTrue(a + b) == FirstTrue(a)
    ensures FirstTrue(a).None? && FirstTrue(b).None? ==> FirstTrue(a + b).None?
    ensures FirstTrue(a).None? && FirstTrue(b).Some? ==> FirstTrue(a + b) == Some(|a| + FirstTrue(b).value)
  {
    var ab := a + b;
    match FirstTrue(a)
    case Some(i) =>
      assert ab[i] == a[i];
      assert forall j :: 0 <= j < i ==> ab[j] == a[j];
      FirstTrueIs(ab, i);
    case None =>
      assert forall j :: 0 <= j < |a| ==> ab[j] == a[j];
      assert forall j :: 0 <= j < |b| ==> ab[|a| + j] == b[j];
      match FirstTrue(b)
      case Some(k) =>
        assert forall j :: 0 <= j < |a| + k ==> !ab[j] by {
          forall j | 0 <= j < |a| + k ensures !ab[j] {
            if j >= |a| {
              assert ab[j] == b[j - |a|];
            }
          }
        }
        FirstTrueIs(ab, |a| + k);
      case None =>
        forall j | 0 <= j < |ab| ensures !ab[j] {
          if j >= |a| {
            assert ab[j] == b[j - |a|];
          }
        }
  }

  /** The position of the first route, in registration order, that matches the request. */
  function FirstMatch(routes: seq<Route>, verb: string, path: string): (r: Option<nat>)
    ensures r.Some? ==> r.value < |routes|
  {
    FirstTrue(Hits(routes, verb, path))
  }

  /** `FirstMatch` finds a matching route with no matching route before it, and finds
      nothing exactly when no route matches. */
  lemma FirstMatchFinds(routes: seq<Route>, verb: string, path: string)
    ensures var r := FirstMatch(routes, verb, path);
      && (r.Some? ==> Match(routes[r.value], verb, path))
      && (r.Some? ==> forall j :: 0 <= j < r.value ==> !Match(routes[j], verb, path))
      && (r.None? <==> forall j :: 0 <= j < |routes| ==> !Match(routes[j], verb, path))
  {
    HitsAt(routes, verb, path);
  }

  /** Position i holds the first route, in registration order, that matches the request. */
  predicate FirstMatchAt(routes: seq<Route>, verb: string, path: string, i: nat)
  {
    && i < |routes|
    && Match(routes[i], verb, path)
    && forall j :: 0 <= j < i ==> !Match(routes[j], verb, path)
  }

  /** What `ServeHTTP` hands a request once `route` is its first match: the bindings of
      that route, and its handler, unless the route was registered with a nil handler,
      in which case the not-found handler runs with those bindings. */
  function Dispatched(route: Route, path: string): Dispatch
    requires Accepts(route.pattern, path)
  {
    var params := SetParams(route, path, map[]);
    match route.handler
    case Some(h) => Dispatch(RouteHandler(h), params)
    case None => Dispatch(NotFoundHandler, params)
  }

  /** The selection part of `ServeHTTP`: the first matching route's handler with the
      bindings its `setParams` writes into an empty map; the not-found handler when no
      route matches (no bindings) or when the first match has a nil handler (its
      bindings). */
  function Serve(t: Router, verb: string, path: string): Dispatch
  {
    FirstMatchFinds(t.routes, verb, path);
    match FirstMatch(t.routes, verb, path)
    case None => Dispatch(NotFoundHandler, map[])
    case Some(i) => Dispatched(t.routes[i], path)
  }

  /** `FirstMatch` finds exactly the first matching position. */
  lemma FirstMatchIs(routes: seq<Route>, verb: string, path: string)
    ensures forall i: nat :: FirstMatchAt(routes, verb, path, i) ==> FirstMatch(routes, verb, path) == Some(i)
  {
    forall i: nat | FirstMatchAt(routes, verb, path, i)
      ensures FirstMatch(routes, verb, path) == Some(i)
    {
      HitsAt(routes, verb, path);
      FirstTrueIs(Hits(routes, verb, path), i);
    }
  }

  /** The route `ServeHTTP` selects is the first matching one in registration order:
      its handler runs with the bindings of that route. */
  lemma ServeSelectsFirst(t: Router, verb: string, path: string, i: nat)
    requires i < |t.routes| && Match(t.routes[i], verb, path)
    requires forall j :: 0 <= j < i ==> !Match(t.routes[j], verb, path)
    ensures t.routes[i].handler.Some? ==>
      Serve(t, verb, path) == Dispatch(RouteHandler(t.routes[i].handler.value), SetParams(t.routes[i], path, map[]))
    ensures t.routes[i].handler.None? ==>
      Serve(t, verb, path) == Dispatch(NotFoundHandler, SetParams(t.routes[i], path, map[]))
  {
    FirstMatchIs(t.routes, verb, path);
    FirstMatchFinds(t.routes, verb, path);
  }

  /** When no route matches, the not-found handler runs with no bindings. */
  lemma ServeNoMatch(t: Router, verb: string, path: string)
    requires forall j :: 0 <= j < |t.routes| ==> !Match(t.routes[j], verb, path)
    ensures Serve(t, verb, path) == Dispatch(NotFoundHandler, map[])
  {
    FirstMatchFinds(t.routes, verb, path);
  }

  /** The response written when the not-found handler runs. */
  function NotFound(t: Router, verb: string, path: string): (resp: Option<Response>)
    ensures resp.Some? <==> Serve(t, verb, path).target.NotFoundHandler?
    ensures resp.Some? ==> resp.value.status == 404 && resp.value.body == "Route Not Found"
  {
    if Serve(t, verb, path).target.NotFoundHandler? then Some(NotFoundResponse) else None
  }

  /** Registration order decides: once some route of `t` matches, routes registered
      later are never consulted; if none does, the decision is the later routes' alone. */
  lemma {:induction false} ServeAppend(routes: seq<Route>, more: seq<Route>, verb: string, path: string)
    ensures FirstMatch(routes, verb, path).Some? ==>
      Serve(Router(routes + more), verb, path) == Serve(Router(routes), verb, path)
    ensures FirstMatch(routes, verb, path).None? ==>
      Serve(Router(routes + more), verb, path) == Serve(Router(more), verb, path)
  {
    FirstMatchAppend(routes, more, verb, path);
    var all := routes + more;
    var f, g := FirstMatch(routes, verb, path), FirstMatch(more, verb, path);
    if f.Some? {
      assert all[f.value] == routes[f.value];
    } else if g.Some? {
      assert all[|routes| + g.value] == more[g.value];
    }
  }

  lemma FirstMatchAppend(routes: seq<Route>, more: seq<Route>, verb: string, path: string)
    ensures FirstMatch(routes, verb, path).Some? ==>
      FirstMatch(routes + more, verb, path) == FirstMatch(routes, verb, path)
    ensures FirstMatch(routes, verb, path).None? && FirstMatch(more, verb, path).None? ==>
      FirstMatch(routes + more, verb, path).None?
    ensures FirstMatch(routes, verb, path).None? && FirstMatch(more, verb, path).Some? ==>
      FirstMatch(routes + more, verb, path) == Some(|routes| + FirstMatch(more, verb, path).value)
  {
    var a, b := Hits(routes, verb, path), Hits(more, verb, path);
    HitsAppend(routes, more, verb, path);
    FirstTrueAppend(a, b);
    assert FirstMatch(routes + more, verb, path) == FirstTrue(a + b);
  }

  /** The hits of a concatenation are the hits of its parts. */
  lemma HitsAppend(routes: seq<Route>, more: seq<Route>, verb: string, path: string)
    ensures Hits(routes + more, verb, path) == Hits(routes, verb, path) + Hits(more, verb, path)
  {
    var all := routes + more;
    var l, r := Hits(all, verb, path), Hits(routes, verb, path) + Hits(more, verb, path);
    HitsAt(all, verb, path);
    HitsAt(routes, verb, path);
    HitsAt(more, verb, path);
    forall j | 0 <= j < |l|
      ensures l[j] == r[j]
    {
      if j < |routes| {
        assert all[j] == routes[j];
      } else {
        assert all[j] == more[j - |routes|];
      }
    }
  }

  /** A successful registration never changes how requests already served by the
      earlier routes are dispatched. */
  lemma AddRouteKeepsEarlierDispatch(t: Router, verb: string, template: string, handler: Handler, reqVerb: string, path: string)
    requires AddRoute(t, verb, template, handler).Success?
    requires exists j :: 0 <= j < |t.routes| && Match(t.routes[j], reqVerb, path)
    ensures Serve(AddRoute(t, verb, template, handler).value, reqVerb, path) == Serve(t, reqVerb, path)
  {
    var t' := AddRoute(t, verb, template, handler).value;
    FirstMatchFinds(t.routes, reqVerb, path);
    assert t'.routes == t.routes + [t'.routes[|t.routes|]];
    ServeAppend(t.routes, [t'.routes[|t.routes|]], reqVerb, path);
  }
}
