/** The table cases of route_test.go and tinyrouter_test.go, and the ordering and
    trailing-literal behaviour of the router, stated about the model. Each template
    arrives as a parameter pinned to its text, so that the proofs go through the general
    lemmas rather than by evaluating the scanner on a literal. */
module Scenarios {
  import opened Results
  import opened Pattern
  import opened Template
  import opened Routes
  import opened TinyRouter

  /** `bracesIndex` of a template whose braces sit exactly at `ps`: the list itself when
      the braces alternate, an unbalanced-braces error otherwise. */
  lemma IndexOfBraces(s: string, ps: seq<nat>)
    requires forall j :: 0 <= j < |ps| ==> ps[j] < |s| && IsBrace(s[ps[j]])
    requires forall j :: 0 < j < |ps| ==> ps[j - 1] < ps[j]
    requires forall i :: 0 <= i < |s| && IsBrace(s[i]) ==> i in ps
    ensures (forall j :: 0 <= j < |ps| ==> s[ps[j]] == Expected(j)) ==> BracesIndex(s) == Success(ps)
    ensures (exists j :: 0 <= j < |ps| && s[ps[j]] != Expected(j)) ==> BracesIndex(s) == Failure(UnbalancedBracesError)
  {
    BracePositionsUnique(s, ps);
  }

  lemma BracesOfTodo(path: string)
    requires path == "/todo"
    ensures BracesIndex(path) == Success([])
  {
    IndexOfBraces(path, []);
  }

  /** `/todo/{id}` followed by any brace-free text (the table has none; `/edit` shows
      what happens to such text). */
  lemma BracesOfTodoId(path: string, rest: string)
    requires path == "/todo/{id}" + rest && forall i :: 0 <= i < |rest| ==> !IsBrace(rest[i])
    ensures BracesIndex(path) == Success([6, 9])
  {
    assert forall i :: 10 <= i < |path| ==> path[i] == rest[i - 10];
    assert forall i :: 0 <= i < |path| && IsBrace(path[i]) ==> i == 6 || i == 9;
    IndexOfBraces(path, [6, 9]);
  }

  lemma BracesOfTodoIdField(path: string)
    requires path == "/todo/{id}/{field}"
    ensures BracesIndex(path) == Success([6, 9, 11, 17])
  {
    var ps: seq<nat> := [6, 9, 11, 17];
    assert forall i :: 0 <= i < |path| && IsBrace(path[i]) ==> i == 6 || i == 9 || i == 11 || i == 17;
    forall j | 0 <= j < |ps|
      ensures path[ps[j]] == Expected(j)
    {
      if j == 0 {
      } else if j == 1 {
      } else if j == 2 {
      }
    }
    IndexOfBraces(path, ps);
  }

  /** A '{' inside an open pair. */
  lemma BracesNested(path: string)
    requires path == "/todo/{i{d}"
    ensures BracesIndex(path) == Failure(UnbalancedBracesError)
  {
    assert forall i :: 0 <= i < |path| && IsBrace(path[i]) ==> i == 6 || i == 8 || i == 10;
    assert path[8] != Expected(1);
    IndexOfBraces(path, [6, 8, 10]);
  }

  /** A '}' before any '{'. */
  lemma BracesCloseFirst(path: string)
    requires path == "/todo/}id}"
    ensures BracesIndex(path) == Failure(UnbalancedBracesError)
  {
    assert forall i :: 0 <= i < |path| && IsBrace(path[i]) ==> i == 6 || i == 9;
    assert path[6] != Expected(0);
    IndexOfBraces(path, [6, 9]);
  }

  /** Two '}' in a row. */
  lemma BracesCloseTwice(path: string)
    requires path == "/todo/{id}}"
    ensures BracesIndex(path) == Failure(UnbalancedBracesError)
  {
    assert forall i :: 0 <= i < |path| && IsBrace(path[i]) ==> i == 6 || i == 9 || i == 10;
    assert path[10] != Expected(2);
    IndexOfBraces(path, [6, 9, 10]);
  }

  /** An unclosed final '{' passes the brace scan; compiling the route then fails. */
  lemma BracesUnclosed(verb: string, path: string, handler: Handler)
    requires path == "/todo/{id"
    ensures BracesIndex(path) == Success([6])
    ensures NewRoute(verb, path, handler) == Failure(IndexOutOfRange)
  {
    assert forall i :: 0 <= i < |path| && IsBrace(path[i]) ==> i == 6;
    IndexOfBraces(path, [6]);
  }

  /** The routes the three templates of the route tables compile to. */
  function TodoRoute(verb: string, handler: Handler): Route
  {
    Route([], verb, "/todo", [Lit("/todo")], handler)
  }

  function TodoIdRoute(verb: string, handler: Handler): Route
  {
    Route(["id"], verb, "/todo/{id}", [Lit("/todo/"), Hole], handler)
  }

  function TodoIdFieldRoute(verb: string, handler: Handler): Route
  {
    Route(["id", "field"], verb, "/todo/{id}/{field}", [Lit("/todo/"), Hole, Lit("/"), Hole], handler)
  }

  lemma CompileTodo(verb: string, raw: string, handler: Handler)
    requires raw == "/todo"
    ensures NewRoute(verb, raw, handler) == Success(TodoRoute(verb, handler))
    ensures PatternString(NewRoute(verb, raw, handler).value) == "^/todo[/]?$"
  {
    StaticRoute(verb, raw, handler);
    PatternOfTodo(raw);
  }

  lemma CompileTodoId(verb: string, raw: string, handler: Handler)
    requires raw == "/todo/{id}"
    ensures NewRoute(verb, raw, handler) == Success(TodoIdRoute(verb, handler))
    ensures PatternString(NewRoute(verb, raw, handler).value) == "^/todo/([^/]+)[/]?$"
  {
    assert raw == "/todo/{id}" + "";
    BracesOfTodoId(raw, "");
    assert Normalize(raw) == Success(raw);
    PiecesOfTodoId(raw, "");
    PatternOfTodoId(raw);
  }

  /** Whatever follows the last '}' is not part of the pieces. */
  lemma PiecesOfTodoId(path: string, rest: string)
    requires path == "/todo/{id}" + rest
    ensures PairsInRange([6, 9], |path|) && GapsInRange([6, 9], |path|)
    ensures ExtractParam(path, [6, 9]) == ["id"]
    ensures MakePieces(path, [6, 9]) == [Lit("/todo/"), Hole]
  {
    var list: seq<nat> := [6, 9];
    assert PairedBraces(path, list);
    PairedBracesSliceable(path, list);
    assert Between(path, 6, 9) == "id";
    assert path[0..6] == "/todo/";
    assert PiecesFrom(path, list, 2, 10) == [];
    assert PiecesFrom(path, list, 0, 0) == [Lit(path[0..6]), Hole] + PiecesFrom(path, list, 2, 10);
  }

  lemma CompileTodoIdField(verb: string, raw: string, handler: Handler)
    requires raw == "/todo/{id}/{field}"
    ensures NewRoute(verb, raw, handler) == Success(TodoIdFieldRoute(verb, handler))
    ensures PatternString(NewRoute(verb, raw, handler).value) == "^/todo/([^/]+)/([^/]+)[/]?$"
  {
    BracesOfTodoIdField(raw);
    assert Normalize(raw) == Success(raw);
    PiecesOfTodoIdField(raw);
    PatternOfTodoIdField(raw);
  }

  lemma PiecesOfTodoIdField(path: string)
    requires path == "/todo/{id}/{field}"
    ensures PairsInRange([6, 9, 11, 17], |path|) && GapsInRange([6, 9, 11, 17], |path|)
    ensures ExtractParam(path, [6, 9, 11, 17]) == ["id", "field"]
    ensures MakePieces(path, [6, 9, 11, 17]) == [Lit("/todo/"), Hole, Lit("/"), Hole]
  {
    var list: seq<nat> := [6, 9, 11, 17];
    assert path[0..6] == "/todo/";
    assert path[10..11] == [path[10]] == "/";
    SliceableTodoIdField(path);
    NamesOfTodoIdField(path);
    TwoHolePieces(path, list);
  }

  lemma SliceableTodoIdField(path: string)
    requires path == "/todo/{id}/{field}"
    ensures PairsInRange([6, 9, 11, 17], |path|) && GapsInRange([6, 9, 11, 17], |path|)
  {
    assert PairedBraces(path, [6, 9, 11, 17]);
    PairedBracesSliceable(path, [6, 9, 11, 17]);
  }

  /** The pieces of a template with two placeholders. */
  lemma TwoHolePieces(path: string, list: seq<nat>)
    requires |list| == 4 && GapsInRange(list, |path|)
    ensures list[1] < list[2] <= |path|
    ensures MakePieces(path, list) == [Lit(path[0..list[0]]), Hole, Lit(path[list[1] + 1..list[2]]), Hole]
  {
    assert list[2] <= |path| && list[1] < list[2];
    assert PiecesFrom(path, list, 4, list[3] + 1) == [];
    assert PiecesFrom(path, list, 2, list[1] + 1) == [Lit(path[list[1] + 1..list[2]]), Hole];
  }

  lemma NamesOfTodoIdField(path: string)
    requires path == "/todo/{id}/{field}"
    ensures PairsInRange([6, 9, 11, 17], |path|)
    ensures ExtractParam(path, [6, 9, 11, 17]) == ["id", "field"]
  {
    var list: seq<nat> := [6, 9, 11, 17];
    assert PairsInRange(list, |path|);
    var names := ExtractParam(path, list);
    assert names[0] == Between(path, 6, 9) == "id";
    assert names[1] == Between(path, 11, 17) == "field";
  }

  /** The regular-expression texts of the pattern table. */
  lemma PatternOfTodo(path: string)
    requires path == "/todo"
    ensures MakePatternString(path, []) == "^/todo[/]?$"
  {
  }

  lemma PatternOfTodoId(path: string)
    requires path == "/todo/{id}"
    ensures GapsInRange([6, 9], |path|)
    ensures MakePatternString(path, [6, 9]) == "^/todo/([^/]+)[/]?$"
  {
    assert path == "/todo/{id}" + "";
    PiecesOfTodoId(path, "");
    RenderOneHole(MakePieces(path, [6, 9]));
  }

  lemma PatternOfTodoIdField(path: string)
    requires path == "/todo/{id}/{field}"
    ensures GapsInRange([6, 9, 11, 17], |path|)
    ensures MakePatternString(path, [6, 9, 11, 17]) == "^/todo/([^/]+)/([^/]+)[/]?$"
  {
    PiecesOfTodoIdField(path);
    RenderTwoHoles(MakePieces(path, [6, 9, 11, 17]));
  }

  lemma RenderOneHole(ps: seq<Piece>)
    requires ps == [Lit("/todo/"), Hole]
    ensures Render(ps) == "^/todo/([^/]+)[/]?$"
  {
    FillLitHole("/todo/", [], Groups(1));
    assert ps == [Lit("/todo/"), Hole] + [];
    assert "^" + "/todo/" + CaptureGroup + OptionalSlashEnd == "^/todo/([^/]+)[/]?$";
  }

  lemma RenderTwoHoles(ps: seq<Piece>)
    requires ps == [Lit("/todo/"), Hole, Lit("/"), Hole]
    ensures Render(ps) == "^/todo/([^/]+)/([^/]+)[/]?$"
  {
    RenderLitHoleLitHole("/todo/", "/");
    assert "^" + "/todo/" + CaptureGroup + "/" + CaptureGroup + OptionalSlashEnd == "^/todo/([^/]+)/([^/]+)[/]?$";
  }

  lemma RenderLitHoleLitHole(a: string, b: string)
    ensures Render([Lit(a), Hole, Lit(b), Hole]) == "^" + a + CaptureGroup + b + CaptureGroup + OptionalSlashEnd
  {
    var gs := Groups(2);
    FillTwoHoles(a, b, gs);
    assert gs[0] == CaptureGroup && gs[1] == CaptureGroup;
  }

  lemma FillTwoHoles(a: string, b: string, cs: seq<string>)
    requires |cs| == 2
    ensures HoleCount([Lit(a), Hole, Lit(b), Hole]) == 2
    ensures Fill([Lit(a), Hole, Lit(b), Hole], cs) == a + cs[0] + (b + cs[1])
  {
    var tail: seq<Piece> := [Lit(b), Hole];
    FillOneHole(b, cs[1..]);
    FillLitHole(a, tail, cs);
    assert [Lit(a), Hole, Lit(b), Hole] == [Lit(a), Hole] + tail;
  }

  lemma FillOneHole(b: string, cs: seq<string>)
    requires |cs| == 1
    ensures HoleCount([Lit(b), Hole]) == 1
    ensures Fill([Lit(b), Hole], cs) == b + cs[0]
  {
    FillLitHole(b, [], cs);
    assert [Lit(b), Hole] == [Lit(b), Hole] + [];
  }

  /** The normalisation table, and the root template, which normalises to "". */
  lemma NormalizeCases(a: string, b: string, c: string, d: string)
    requires a == "todo" && b == "/todo/" && c == "/todo" && d == "/"
    ensures Normalize(a) == Failure(InvalidPathError)
    ensures Normalize(b) == Success("/todo")
    ensures Normalize(c) == Success("/todo")
    ensures Normalize(d) == Success("")
  {
    assert b[..|b| - 1] == "/todo";
  }

  /** The match table: the method must be equal, a trailing '/' is accepted, and each
      placeholder takes one segment. */
  lemma MatchTodo(r: Route, path: string)
    requires r == TodoRoute("GET", Some(0)) && (path == "/todo" || path == "/todo/")
    ensures Match(r, "GET", path)
    ensures !Match(r, "POST", path)
  {
    StaticAccepts("/todo", path);
    MatchIffAccepts(r, "GET", path);
  }

  /** Any one segment after "/todo/" is accepted, with or without a trailing '/' (the
      table uses "aaa" and "123"). */
  lemma MatchTodoId(r: Route, c: string)
    requires r == TodoIdRoute("GET", Some(0)) && IsSegment(c)
    ensures Match(r, "GET", "/todo/" + c)
    ensures Match(r, "GET", "/todo/" + c + "/")
  {
    OneSegment(r.pattern, c);
    MatchIffAccepts(r, "GET", "/todo/" + c);
    MatchIffAccepts(r, "GET", "/todo/" + c + "/");
  }

  /** The `/todo/{id}` route binds the segment with or without a trailing '/'. */
  lemma TodoIdBinds(r: Route, c: string)
    requires r == TodoIdRoute("GET", Some(0)) && IsSegment(c)
    ensures Match(r, "GET", "/todo/" + c) && SetParams(r, "/todo/" + c, map[]) == map["id" := c]
    ensures Match(r, "GET", "/todo/" + c + "/") && SetParams(r, "/todo/" + c + "/", map[]) == map["id" := c]
  {
    BindId(r, "/todo/" + c, c);
    BindId(r, "/todo/" + c + "/", c);
  }

  /** The `/todo/{id}` route rejects a second segment, a missing one, and another
      method. */
  lemma TodoIdRejects(r: Route, c: string, deeper: string, bare: string)
    requires r == TodoIdRoute("GET", Some(0)) && IsSegment(c)
    requires deeper == "/todo/abc/def" && bare == "/todo"
    ensures !Match(r, "GET", deeper)
    ensures !Match(r, "GET", bare)
    ensures !Match(r, "POST", "/todo/" + c)
  {
    assert deeper == "/todo/" + "abc/def";
    InnerSlashRejected("/todo/", "abc/def", 3);
    LeadingLiteralRequired(r.pattern, bare);
    MatchIffAccepts(r, "GET", deeper);
    MatchIffAccepts(r, "GET", bare);
  }

  lemma OneSegment(ps: seq<Piece>, c: string)
    requires ps == [Lit("/todo/"), Hole] && IsSegment(c)
    ensures HoleCount(ps) == 1 && AllSegments([c]) && Fill(ps, [c]) == "/todo/" + c
    ensures Accepts(ps, "/todo/" + c) && Accepts(ps, "/todo/" + c + "/")
  {
    FillLitHole("/todo/", [], [c]);
    assert ps == [Lit("/todo/"), Hole] + [];
  }

  /** Two segments fill the two placeholders (the table uses "123" and "status"). */
  lemma MatchTodoIdField(r: Route, c: string, d: string)
    requires r == TodoIdFieldRoute("GET", Some(0)) && IsSegment(c) && IsSegment(d)
    ensures Match(r, "GET", "/todo/" + c + "/" + d)
  {
    TwoSegments(r.pattern, c, d);
    MatchIffAccepts(r, "GET", "/todo/" + c + "/" + d);
  }

  lemma TwoSegments(ps: seq<Piece>, c: string, d: string)
    requires ps == [Lit("/todo/"), Hole, Lit("/"), Hole] && IsSegment(c) && IsSegment(d)
    ensures HoleCount(ps) == 2 && AllSegments([c, d]) && Fill(ps, [c, d]) == "/todo/" + c + "/" + d
    ensures Accepts(ps, "/todo/" + c + "/" + d)
  {
    var tail: seq<Piece> := [Lit("/"), Hole];
    FillLitHole("/", [], [d]);
    assert tail == [Lit("/"), Hole] + [];
    FillLitHole("/todo/", tail, [c, d]);
    assert [c, d][1..] == [d];
    assert ps == [Lit("/todo/"), Hole] + tail;
  }

  /** The router of tinyrouter_test.go: handlers 1 to 5 registered in table order. */
  function SetupRouter(todo: string, todoId: string, todoIdField: string): Result<Router, RouteError>
  {
    var t :- Get(New(), todo, Some(1));
    var t :- Post(t, todo, Some(2));
    var t :- Put(t, todoId, Some(3));
    var t :- Delete(t, todoId, Some(4));
    Get(t, todoIdField, Some(5))
  }

  function TableRoutes(): seq<Route>
  {
    [TodoRoute("GET", Some(1)), TodoRoute("POST", Some(2)), TodoIdRoute("PUT", Some(3)), TodoIdRoute("DELETE", Some(4)),
     TodoIdFieldRoute("GET", Some(5))]
  }

  lemma RegisterTodo(t: Router, verb: string, raw: string, handler: Handler)
    requires raw == "/todo"
    ensures AddRoute(t, verb, raw, handler) == Success(Router(t.routes + [TodoRoute(verb, handler)]))
  {
    CompileTodo(verb, raw, handler);
  }

  lemma RegisterTodoId(t: Router, verb: string, raw: string, handler: Handler)
    requires raw == "/todo/{id}"
    ensures AddRoute(t, verb, raw, handler) == Success(Router(t.routes + [TodoIdRoute(verb, handler)]))
  {
    CompileTodoId(verb, raw, handler);
  }

  lemma RegisterTodoIdField(t: Router, verb: string, raw: string, handler: Handler)
    requires raw == "/todo/{id}/{field}"
    ensures AddRoute(t, verb, raw, handler) == Success(Router(t.routes + [TodoIdFieldRoute(verb, handler)]))
  {
    CompileTodoIdField(verb, raw, handler);
  }

  lemma TableInOrder()
    ensures New().routes + [TodoRoute("GET", Some(1))] + [TodoRoute("POST", Some(2))] + [TodoIdRoute("PUT", Some(3))]
      + [TodoIdRoute("DELETE", Some(4))] + [TodoIdFieldRoute("GET", Some(5))] == TableRoutes()
  {
  }

  lemma SetupTable(todo: string, todoId: string, todoIdField: string)
    requires todo == "/todo" && todoId == "/todo/{id}" && todoIdField == "/todo/{id}/{field}"
    ensures SetupRouter(todo, todoId, todoIdField) == Success(Router(TableRoutes()))
  {
    var t0 := New();
    RegisterTodo(t0, "GET", todo, Some(1));
    var t1 := Router(t0.routes + [TodoRoute("GET", Some(1))]);
    assert Get(t0, todo, Some(1)) == Success(t1);
    RegisterTodo(t1, "POST", todo, Some(2));
    var t2 := Router(t1.routes + [TodoRoute("POST", Some(2))]);
    assert Post(t1, todo, Some(2)) == Success(t2);
    RegisterTodoId(t2, "PUT", todoId, Some(3));
    var t3 := Router(t2.routes + [TodoIdRoute("PUT", Some(3))]);
    assert Put(t2, todoId, Some(3)) == Success(t3);
    RegisterTodoId(t3, "DELETE", todoId, Some(4));
    var t4 := Router(t3.routes + [TodoIdRoute("DELETE", Some(4))]);
    assert Delete(t3, todoId, Some(4)) == Success(t4);
    RegisterTodoIdField(t4, "GET", todoIdField, Some(5));
    TableInOrder();
  }

  lemma ServeGetTodo(t: Router, path: string)
    requires t == Router(TableRoutes()) && path == "/todo"
    ensures Serve(t, "GET", path) == Dispatch(RouteHandler(1), map[])
  {
    StaticAccepts("/todo", path);
    MatchIffAccepts(t.routes[0], "GET", path);
    ServeSelectsFirst(t, "GET", path, 0);
  }

  lemma ServePostTodo(t: Router, path: string)
    requires t == Router(TableRoutes()) && path == "/todo"
    ensures Serve(t, "POST", path) == Dispatch(RouteHandler(2), map[])
  {
    StaticAccepts("/todo", path);
    MatchIffAccepts(t.routes[1], "POST", path);
    ServeSelectsFirst(t, "POST", path, 1);
  }

  /** Binding a `/todo/{id}` route: the segment after "/todo/" becomes `id`. */
  lemma BindId(r: Route, path: string, c: string)
    requires r.pattern == [Lit("/todo/"), Hole] && r.paramNames == ["id"]
    requires IsSegment(c) && (path == "/todo/" + c || path == "/todo/" + c + "/")
    ensures Match(r, r.verb, path) && SetParams(r, path, map[]) == map["id" := c]
  {
    OneSegment(r.pattern, c);
    SeparatedRouteBindings(r, path, [c]);
  }

  /** Binding a `/todo/{id}/{field}` route: the two segments become `id` and `field`. */
  lemma BindIdField(r: Route, path: string, c: string, d: string)
    requires r.pattern == [Lit("/todo/"), Hole, Lit("/"), Hole] && r.paramNames == ["id", "field"]
    requires IsSegment(c) && IsSegment(d) && path == "/todo/" + c + "/" + d
    ensures Match(r, r.verb, path) && SetParams(r, path, map[]) == map["id" := c, "field" := d]
  {
    TwoSegments(r.pattern, c, d);
    assert Separated(r.pattern[2..]) && Separated(r.pattern[1..]);
    SeparatedRouteBindings(r, path, [c, d]);
    assert LastOccurrence(r.paramNames, 0) && LastOccurrence(r.paramNames, 1);
  }

  lemma ServePutTodoId(t: Router, path: string)
    requires t == Router(TableRoutes()) && path == "/todo/abc"
    ensures Serve(t, "PUT", path) == Dispatch(RouteHandler(3), map["id" := "abc"])
  {
    BindId(t.routes[2], path, "abc");
    forall j | 0 <= j < 2 ensures !Match(t.routes[j], "PUT", path) {
      assert t.routes[j].verb != "PUT";
    }
    ServeSelectsFirst(t, "PUT", path, 2);
  }

  lemma ServeDeleteTodoId(t: Router, path: string)
    requires t == Router(TableRoutes()) && path == "/todo/abc"
    ensures Serve(t, "DELETE", path) == Dispatch(RouteHandler(4), map["id" := "abc"])
  {
    BindId(t.routes[3], path, "abc");
    forall j | 0 <= j < 3 ensures !Match(t.routes[j], "DELETE", path) {
      assert t.routes[j].verb != "DELETE";
    }
    ServeSelectsFirst(t, "DELETE", path, 3);
  }

  lemma ServeGetTodoIdField(t: Router, path: string)
    requires t == Router(TableRoutes()) && path == "/todo/abc/def"
    ensures Serve(t, "GET", path) == Dispatch(RouteHandler(5), map["id" := "abc", "field" := "def"])
  {
    BindIdField(t.routes[4], path, "abc", "def");
    NoEarlierGet(t, path);
    ServeSelectsFirst(t, "GET", path, 4);
  }

  /** `GET /todo/abc/def` is not `/todo` or `/todo/`, and the other early routes have
      other methods. */
  lemma NoEarlierGet(t: Router, path: string)
    requires t == Router(TableRoutes()) && path == "/todo/abc/def"
    ensures forall j :: 0 <= j < 4 ==> !Match(t.routes[j], "GET", path)
  {
    StaticAccepts("/todo", path);
    forall j | 0 <= j < 4 ensures !Match(t.routes[j], "GET", path) {
      if j == 0 {
        assert path != "/todo" && path != "/todo/";
        MatchIffAccepts(t.routes[0], "GET", path);
      } else {
        assert t.routes[j].verb != "GET";
      }
    }
  }

  lemma ServeNotFound(t: Router, path: string)
    requires t == Router(TableRoutes()) && path == "/notfound"
    ensures Serve(t, "GET", path) == Dispatch(NotFoundHandler, map[])
    ensures NotFound(t, "GET", path) == Some(Response(404, "Route Not Found"))
  {
    NothingMatches(t, path);
    ServeNoMatch(t, "GET", path);
  }

  /** No route of the table accepts `GET /notfound`: the two GET routes need the path to
      start with "/todo". */
  lemma NothingMatches(t: Router, path: string)
    requires t == Router(TableRoutes()) && path == "/notfound"
    ensures forall j :: 0 <= j < |t.routes| ==> !Match(t.routes[j], "GET", path)
  {
    assert path[1] != 't';
    forall j | 0 <= j < |t.routes| ensures !Match(t.routes[j], "GET", path) {
      if j == 0 {
        StaticAccepts("/todo", path);
        MatchIffAccepts(t.routes[0], "GET", path);
      } else if j == 4 {
        LeadingLiteralRequired(t.routes[4].pattern, path);
        MatchIffAccepts(t.routes[4], "GET", path);
      } else {
        assert t.routes[j].verb != "GET";
      }
    }
  }

  /** Registration order decides: a parameter route registered before a static one
      shadows it, and the static text is bound as the parameter. */
  lemma FirstRegisteredWins(t: Router, path: string)
    requires t == Router([TodoIdRoute("GET", Some(1)), Route([], "GET", "/todo/static", [Lit("/todo/static")], Some(2))])
    requires path == "/todo/static"
    ensures Match(t.routes[0], "GET", path) && Match(t.routes[1], "GET", path)
    ensures Serve(t, "GET", path) == Dispatch(RouteHandler(1), map["id" := "static"])
  {
    BindId(t.routes[0], path, "static");
    StaticAccepts("/todo/static", path);
    MatchIffAccepts(t.routes[1], "GET", path);
    ServeSelectsFirst(t, "GET", path, 0);
  }

  /** A route registered with a nil handler still matches and binds its parameters,
      and then the not-found handler runs in its place. */
  lemma NilHandlerFallsBack(t: Router, path: string)
    requires t == Router([TodoIdRoute("GET", None)]) && path == "/todo/abc"
    ensures Match(t.routes[0], "GET", path)
    ensures Serve(t, "GET", path) == Dispatch(NotFoundHandler, map["id" := "abc"])
    ensures NotFound(t, "GET", path) == Some(Response(404, "Route Not Found"))
  {
    BindId(t.routes[0], path, "abc");
    ServeSelectsFirst(t, "GET", path, 0);
  }

  /** `/todo/{id}/edit` compiles to the pattern of `/todo/{id}`: the text after the
      last '}' is lost. */
  lemma CompileTodoIdEdit(verb: string, raw: string, handler: Handler)
    requires raw == "/todo/{id}/edit"
    ensures NewRoute(verb, raw, handler) == Success(Route(["id"], verb, raw, [Lit("/todo/"), Hole], handler))
  {
    var rest := "/edit";
    assert raw == "/todo/{id}" + rest && forall i :: 0 <= i < |rest| ==> !IsBrace(rest[i]);
    BracesOfTodoId(raw, rest);
    assert Normalize(raw) == Success(raw);
    PiecesOfTodoId(raw, rest);
  }

  /** So the `/todo/{id}/edit` route accepts `/todo/abc` and rejects `/todo/abc/edit`. */
  lemma TrailingLiteralLost(r: Route, path: string, full: string)
    requires r == Route(["id"], "GET", "/todo/{id}/edit", [Lit("/todo/"), Hole], Some(0))
    requires path == "/todo/abc" && full == "/todo/abc/edit"
    ensures Match(r, "GET", path) && SetParams(r, path, map[]) == map["id" := "abc"]
    ensures !Match(r, "GET", full)
  {
    assert IsSegment("abc") && path == "/todo/" + "abc";
    assert full == "/todo/" + "abc/edit" && "abc/edit"[3] == '/';
    InnerSlashRejected("/todo/", "abc/edit", 3);
    MatchIffAccepts(r, "GET", full);
    BindId(r, path, "abc");
  }

  /** The root template normalises to the empty string, and its route accepts both the
      empty path and "/". */
  lemma RootTemplate(verb: string, raw: string, handler: Handler)
    requires raw == "/"
    ensures NewRoute(verb, raw, handler) == Success(Route([], verb, raw, [Lit("")], handler))
    ensures Match(NewRoute(verb, raw, handler).value, verb, "")
    ensures Match(NewRoute(verb, raw, handler).value, verb, "/")
  {
    StaticRoute(verb, raw, handler);
    StaticAccepts("", "");
    StaticAccepts("", "/");
    MatchIffAccepts(NewRoute(verb, raw, handler).value, verb, "");
    MatchIffAccepts(NewRoute(verb, raw, handler).value, verb, "/");
  }
}
