# tinyrouter route matching, modelled in Dafny

This project models the route-matching core of tinyrouter, a small HTTP request router
written in Go. A route is registered for a method and a path template such as
`/todo/{id}/{field}`. Compiling the template takes four steps:

- normalising it (a leading `/` is required and one trailing `/` is removed);
- locating its braces;
- taking out the parameter names;
- building the anchored regular expression `^/todo/([^/]+)/([^/]+)[/]?$`.

The router keeps its routes in registration order. A request (method, path) is
dispatched to the first route whose method equals the request method and whose pattern
accepts the path. The captured segments are bound to the route's parameter names. When
no route matches, or the first matching route was registered with a nil handler, the
not-found handler answers 404 with "Route Not Found".

The files:

- `results.dfy` (module `Results`): `Option` and `Result`. `:-` propagates the first
  error, as `newRoute` returns at each failed step.
- `pattern.dfy` (module `Pattern`): the compiled pattern as a sequence of pieces
  (`Lit(text)` or `Hole`), and its regular-expression text (`Render`).
  - `Accepts` is a declarative reading of acceptance. A path is accepted when it is the
    template with every placeholder replaced by a non-empty run of non-`/` characters,
    optionally followed by one `/`.
  - `Submatch` models the leftmost-first search of Go's `FindStringSubmatch` on this
    fragment of regular expressions. Each placeholder takes its longest run first and
    gives characters back only when the rest cannot match.
  - The two readings are proved to agree. The captures are unique when every
    placeholder is followed by `/` or the end.
- `template.dfy` (module `Template`): the template compiler of route.go. It covers
  `normalize`, `bracesIndex` (declaratively, as `BracePositions`/`Alternating`, and as
  the scanning loop `ScanBraces`), `extractParam` and `makePatternString`.
- `route.dfy` (module `Routes`): `newRoute`, `match`, `params`, `combineParams` and
  `setParams`.
- `tinyrouter.dfy` (module `TinyRouter`): the router, the nine per-method
  registrations, first-match selection in `ServeHTTP` and the not-found response.
- `scenarios.dfy` (module `Scenarios`): the table cases of route_test.go and
  tinyrouter_test.go stated about the model, and the ordering and trailing-literal
  behaviour.

Requests are (method, path) pairs. A handler is an opaque identifier (`HandlerId`), or
`None` for a nil `http.HandlerFunc`.
Bindings are `map<string, string>`. A Go runtime panic becomes the error value
`IndexOutOfRange`:

- `normalize` reading `raw[0]` of the empty template;
- `makePatternString` reading past the end of an odd-length index list.

Registration in Go panics on a bad template. Here it returns a failed `Result` and adds
no route.

Three behaviours of the code are reproduced as written:

- The text after the last `}` is never written into the pattern. `/todo/{id}/edit`
  compiles to the same pattern as `/todo/{id}`, so it matches `/todo/abc` and not
  `/todo/abc/edit`.
- `normalize("/")` is the empty string. The code has no guard that keeps a lone `/`,
  so the root route accepts `""` and `"/"`.
- An unclosed final `{` passes `bracesIndex`. `/todo/{id` gives the index list `[6]`.
  The failure comes later, as an index-out-of-range panic while building the pattern,
  not as `UnbalancedBracesError`.

## Model

| member | source | states |
|---|---|---|
| Template.Normalize | route.go:56-66 | fails with `InvalidPathError` exactly when the first character is not `/`; otherwise the result is the template without its one trailing `/`, or the template itself when it does not end in `/` |
| Template.NormalizePrefix | route.go:61-65 | a normalised template is a prefix of the raw one, one character shorter at most, and `/` normalises to the empty string |
| Template.BracesIndex | route.go:68-86 | succeeds exactly when the braces alternate `{`, `}`, `{`, ... (a final unclosed `{` allowed), otherwise `UnbalancedBracesError`; on success the list is strictly increasing and in range, has `{` at even and `}` at odd positions, and contains every brace of the path |
| Template.ScanBraces | route.go:71-85 | the scanning loop with its depth counter, started from any prefix that still alternates, succeeds exactly when the whole path alternates and then returns exactly the brace positions |
| Template.ScanAdvance | route.go:72-83 | one scanning step: a non-brace keeps the list, the expected brace appends its index, and an unexpected brace breaks alternation for the whole path (so returning early is sound) |
| Template.AlternatingStep | route.go:72-83 | extending an alternating prefix by one character keeps it alternating exactly when that character is not a brace or is the brace expected next |
| Template.BrokenPrefix | route.go:74-81 | a prefix whose braces do not alternate makes the whole path fail |
| Template.BracePositionsUnique | route.go:68-86 | any strictly increasing list of in-range brace indices that misses no brace is the list `bracesIndex` builds |
| Template.ExtractParam | route.go:26-32 | one name per index pair, the k-th name being the text strictly between the k-th `{` and its `}` |
| Template.NamesFromIndex | route.go:28-30 | the loop from pair i on puts each pair's name at that pair's position |
| Template.MakePieces | route.go:34-47 | one placeholder per index pair; with no braces the whole path is one literal |
| Template.MakePatternString | route.go:34-49 | with no braces the text is `^`, the path, then `[/]?$` |
| Template.TemplateRoundTrip | route.go:26-49 | putting each extracted name back between braces into the compiled pieces rebuilds the normalised template, except for the text after the last `}`; the pattern has as many placeholders as there are names |
| Template.PiecesFromRoundTrip | route.go:41-46 | the rebuild from pair i on gives the template from the current start to the last `}` |
| Template.TrailingLiteralIgnored | route.go:41-48 | the text after the last `}` does not influence the compiled pieces |
| Template.CompiledPiecesSeparated | route.go:41-46 | when every `}` is followed by `/` or the end, every placeholder of the pattern is followed by the end or by literal text starting with `/` |
| Pattern.Render | route.go:36-48 | the regular-expression text of a pattern: `^`, each literal as written and each placeholder as `([^/]+)`, then `[/]?$`; its text for the table templates is pinned by Scenarios.PatternOfTodo, Scenarios.PatternOfTodoId and Scenarios.PatternOfTodoIdField |
| Pattern.Submatch | route.go:120-123 | the captures the search reports are non-empty runs without `/`, one per placeholder, and the path is the template filled with them, optionally followed by `/` |
| Pattern.SubmatchIffAccepts | route.go:113-118 | the search succeeds exactly when the path is the template with segments filled in, optionally followed by one `/` |
| Pattern.SubmatchComplete | route.go:113-118 | every filled template, with or without one trailing `/`, is found by the search |
| Pattern.SubmatchUnique | route.go:120-123 | for separated pieces the search returns exactly the segments the path was built from |
| Pattern.CapturesDetermined | route.go:120-123 | for separated pieces two decompositions of the same path into segments are equal |
| Pattern.StaticAccepts | route.go:36-48 | a pattern of literal text alone accepts exactly that text and that text followed by `/` |
| Pattern.LeadingLiteralRequired | route.go:48 | the pattern is anchored at the start: a path that does not begin with the leading literal is rejected |
| Pattern.InnerSlashRejected | route.go:44 | a placeholder never captures `/`: a path with `/` inside the captured part is rejected, whether or not a trailing `/` follows |
| Routes.NewRoute | route.go:88-111 | compiles exactly the templates that start with `/` and whose normalised braces alternate and are closed; the first failing step decides the error (empty template and unclosed `{` as `IndexOutOfRange`, no leading `/` as `InvalidPathError`, misplaced brace as `UnbalancedBracesError`); a compiled route keeps the method, the raw template and the handler, and has one name per placeholder |
| Routes.NewRouteCompiles | route.go:99-106 | the compiled pattern and names are the pieces and names of the normalised template at its brace positions |
| Routes.StaticRoute | route.go:88-111 | a template without braces compiles to one literal, its normalised text, and no names |
| Routes.PatternString | route_test.go:183 | the text of a route's compiled expression (`route.Pattern.String()`), which is `Render` of its pieces; pinned for the table routes by Scenarios.CompileTodo, Scenarios.CompileTodoId and Scenarios.CompileTodoIdField |
| Routes.Match | route.go:113-118 | equal methods and a successful search of the path; characterised by Routes.MatchIffAccepts |
| Routes.MatchIffAccepts | route.go:113-118 | a route matches exactly when the methods are equal and the pattern accepts the path |
| Routes.Params | route.go:120-123 | the captured values are one segment per placeholder whose filling rebuilds the path, and, for separated patterns, the only such segments |
| Routes.CombineParams | route.go:125-133 | with unequal counts the bindings are unchanged; otherwise the keys become the old keys plus the names, each name is bound to the value at its last position, and every other key keeps its value |
| Routes.BindAll | route.go:130-132 | the loop binds each name to its value, a later duplicate overwriting an earlier one, and leaves other keys alone |
| Routes.SetParams | route.go:135-141 | a route without names leaves the bindings untouched; otherwise the keys become the old keys plus the names, each name is bound to the captured value at its last position, and other keys keep their values |
| Routes.SeparatedRouteBindings | route.go:113-141 | for a separated route a path built from segments matches and binds each name to the segment in its place, and nothing else |
| Routes.CompiledRouteBindings | route.go:88-141 | the same for any compiled route whose every `}` is followed by `/` or the end |
| TinyRouter.New | tinyrouter.go:27-31 | a new router has no routes |
| TinyRouter.AddRoute | tinyrouter.go:33-40 | succeeds exactly for templates that compile, then appends exactly the compiled route and keeps the earlier ones; a failure adds nothing and reports the compile error |
| TinyRouter.Head | tinyrouter.go:42-44 | registers method `HEAD` for the path |
| TinyRouter.Get | tinyrouter.go:46-48 | registers method `GET` for the path |
| TinyRouter.Post | tinyrouter.go:50-52 | registers method `POST` for the path |
| TinyRouter.Put | tinyrouter.go:54-56 | registers method `PUT` for the path |
| TinyRouter.Patch | tinyrouter.go:58-60 | registers method `PATCH` for the path |
| TinyRouter.Delete | tinyrouter.go:62-64 | registers method `DELETE` for the path |
| TinyRouter.Options | tinyrouter.go:66-68 | registers method `OPTIONS` for the path |
| TinyRouter.Connect | tinyrouter.go:70-72 | registers method `CONNECT` for the path |
| TinyRouter.Trace | tinyrouter.go:74-76 | registers method `TRACE` for the path |
| TinyRouter.Hits | tinyrouter.go:82-83 | the match test of the loop for each route, in registration order, one entry per route; characterised by TinyRouter.HitsAt |
| TinyRouter.HitsAt | tinyrouter.go:82-83 | the loop's match test for each route, in registration order, is that route's `match` |
| TinyRouter.FirstMatch | tinyrouter.go:82-89 | the position at which the loop breaks, a position of the route list, or none; characterised by TinyRouter.FirstMatchFinds and TinyRouter.FirstMatchIs |
| TinyRouter.FirstMatchFinds | tinyrouter.go:82-89 | the position found matches and no earlier route does; none is found exactly when no route matches |
| TinyRouter.FirstMatchIs | tinyrouter.go:82-89 | a matching route with no matching route before it is exactly the position found |
| TinyRouter.Dispatched | tinyrouter.go:84-94 | the handler and bindings `ServeHTTP` uses once a route is the first match: that route's handler, or the not-found handler when it is nil, with the bindings its `setParams` writes; used by TinyRouter.ServeSelectsFirst |
| TinyRouter.Serve | tinyrouter.go:78-94 | the selection of `ServeHTTP`: the first match's dispatch, or the not-found handler with no bindings; characterised by TinyRouter.ServeSelectsFirst and TinyRouter.ServeNoMatch |
| TinyRouter.ServeSelectsFirst | tinyrouter.go:82-94 | a matching route with no matching route before it is the one dispatched, with the bindings its `setParams` writes into an empty map; its handler runs, or the not-found handler when it was registered with a nil one |
| TinyRouter.ServeNoMatch | tinyrouter.go:91-94 | when no route matches, the not-found handler runs with empty bindings |
| TinyRouter.NotFound | util.go:5-8 | a response is written exactly when the not-found handler was chosen, with status 404 and body "Route Not Found" |
| TinyRouter.ServeAppend | tinyrouter.go:82-89 | routes registered later are never consulted once an earlier one matches; if none does, the later routes alone decide |
| TinyRouter.FirstMatchAppend | tinyrouter.go:82-89 | first-match over two concatenated route lists, in both cases |
| TinyRouter.AddRouteKeepsEarlierDispatch | tinyrouter.go:33-40 | a successful registration never changes the dispatch of a request an earlier route already serves |
| Scenarios.BracesOfTodo | route_test.go:107-111 | `/todo` has the empty index list |
| Scenarios.BracesOfTodoId | route_test.go:112-116 | `/todo/{id}`, followed by any brace-free text, has indices 6, 9 |
| Scenarios.BracesOfTodoIdField | route_test.go:117-121 | `/todo/{id}/{field}` has indices 6, 9, 11, 17 |
| Scenarios.BracesNested | route_test.go:122-126 | `/todo/{i{d}` is unbalanced |
| Scenarios.BracesCloseFirst | route_test.go:127-131 | `/todo/}id}` is unbalanced |
| Scenarios.BracesCloseTwice | route_test.go:132-136 | `/todo/{id}}` is unbalanced |
| Scenarios.BracesUnclosed | route.go:71-85 | `/todo/{id` passes with the list `[6]`, and compiling it fails with an index-out-of-range panic |
| Scenarios.IndexOfBraces | route.go:68-86 | a path whose braces sit exactly at a given increasing list yields that list when they alternate and `UnbalancedBracesError` otherwise |
| Scenarios.PiecesOfTodoId | route_test.go:21-24 | `/todo/{id}`, followed by any text, has the names `["id"]` and the pieces `/todo/`, placeholder |
| Scenarios.PiecesOfTodoIdField | route_test.go:25-28 | `/todo/{id}/{field}` has the names `["id", "field"]` and the pieces `/todo/`, placeholder, `/`, placeholder |
| Scenarios.PatternOfTodo | route_test.go:45-48 | the pattern text of `/todo` is `^/todo[/]?$` |
| Scenarios.PatternOfTodoId | route_test.go:49-52 | the pattern text of `/todo/{id}` is `^/todo/([^/]+)[/]?$` |
| Scenarios.PatternOfTodoIdField | route_test.go:53-56 | the pattern text of `/todo/{id}/{field}` is `^/todo/([^/]+)/([^/]+)[/]?$` |
| Scenarios.NormalizeCases | route_test.go:73-87 | `todo` is an invalid path, `/todo/` and `/todo` both normalise to `/todo`, and `/` normalises to the empty string |
| Scenarios.CompileTodo | route_test.go:157-162 | the route for `/todo` keeps method and template, has no names and the pattern text `^/todo[/]?$` |
| Scenarios.CompileTodoId | route_test.go:163-168 | the route for `/todo/{id}` has the names `["id"]` and the pattern text `^/todo/([^/]+)[/]?$` |
| Scenarios.CompileTodoIdField | route_test.go:169-174 | the route for `/todo/{id}/{field}` has the names `["id", "field"]` and the pattern text `^/todo/([^/]+)/([^/]+)[/]?$` |
| Scenarios.MatchTodo | route_test.go:196-216 | GET `/todo` matches `/todo` and `/todo/`, and a POST request does not |
| Scenarios.MatchTodoId | route_test.go:217-237 | GET `/todo/{id}` matches `/todo/` followed by any segment, with or without a trailing `/`; the test's `/todo/aaa`, `/todo/123` and `/todo/123/` are instances of this one statement |
| Scenarios.MatchTodoIdField | route_test.go:238-244 | GET `/todo/{id}/{field}` matches `/todo/`, a segment, `/` and a segment |
| Scenarios.TodoIdBinds | route.go:120-133 | `/todo/{id}` binds `id` to the segment with or without a trailing `/` |
| Scenarios.TodoIdRejects | route.go:113-118 | `/todo/{id}` rejects `/todo/abc/def`, `/todo` and a request with another method |
| Scenarios.SetupTable | tinyrouter_test.go:74-124 | registering the five test routes in order succeeds and yields exactly the expected route table |
| Scenarios.ServeGetTodo | tinyrouter_test.go:21-26 | GET `/todo` goes to the first handler with no bindings |
| Scenarios.ServePostTodo | tinyrouter_test.go:27-32 | POST `/todo` goes to the second handler with no bindings |
| Scenarios.ServePutTodoId | tinyrouter_test.go:33-38 | PUT `/todo/abc` goes to the PUT handler with `id = "abc"` |
| Scenarios.ServeDeleteTodoId | tinyrouter_test.go:39-44 | DELETE `/todo/abc` goes to the DELETE handler with `id = "abc"` |
| Scenarios.ServeGetTodoIdField | tinyrouter_test.go:45-50 | GET `/todo/abc/def` goes to the last handler with `id = "abc"` and `field = "def"` |
| Scenarios.ServeNotFound | tinyrouter_test.go:51-56 | GET `/notfound` matches no route and answers 404 "Route Not Found" |
| Scenarios.NilHandlerFallsBack | tinyrouter.go:84-94 | a GET `/todo/{id}` route registered with a nil handler matches `/todo/abc`, and the not-found handler runs with `id = "abc"` and answers 404 "Route Not Found" |
| Scenarios.FirstRegisteredWins | tinyrouter.go:82-89 | with GET `/todo/{id}` registered before GET `/todo/static`, both match `/todo/static` and the first wins with `id = "static"` |
| Scenarios.CompileTodoIdEdit | route.go:41-48 | `/todo/{id}/edit` compiles to the pieces of `/todo/{id}`: the trailing `/edit` is lost |
| Scenarios.TrailingLiteralLost | route.go:41-48 | that route matches `/todo/abc`, binding `id = "abc"`, and does not match `/todo/abc/edit` |
| Scenarios.RootTemplate | route.go:61-62 | the template `/` compiles to the empty literal, and its route accepts both the empty path and `/` |

## Left out

- HTTP plumbing: `http.ResponseWriter`, `*http.Request`, handler invocation and the test
  servers. A request is its method and URL path, and a handler is an opaque identifier.
- `newRequest` and `Param`, which attach the bindings to the request context and read
  them back. They are not part of this model: `Serve` returns the bindings instead.
- Go's `regexp` package. The pattern is modelled as pieces, and only the fragment
  tinyrouter generates is given meaning. Literal template text is not escaped before
  compilation, so a regular-expression metacharacter in a template would change its
  meaning; templates are taken to contain none.
- `makePattern` and the `regexp.Compile` error it can return (route.go:51-54, 99-102).
  Without metacharacters the generated text always compiles, so this error path does
  not arise.
- Panics as process aborts. A panic while compiling or registering is a failed
  `Result` instead.
- The custom not-found handler (a TODO in tinyrouter.go:92). `ServeHTTP` refers to
  `defaultNotFoundHandler`, while util.go defines `DefaultNotFoundHandler`; the model
  uses the response util.go writes.
- Writing the not-found response to the client. It is a `Response` value.
- example/main.go, which only starts an HTTP server.
- Concurrency between registration and serving.
- Byte versus character indexing. Go indexes strings by byte; the model indexes
  `seq<char>`. The brace positions differ once a multi-byte character precedes a
  brace: `/é/{id}` gives `[4, 7]` in Go and `[3, 6]` here. The names and literal
  pieces sliced at those positions are the same.
- Pattern.SubmatchUnique: capture uniqueness is proved only for separated patterns,
  where every placeholder is followed by `/` or the end. For other patterns only the
  search's soundness and completeness are proved.
- Template.Normalize: requires a non-empty template, because Go's `raw[0]` panics on
  the empty one. The caller `Routes.NewRoute` reports that case as `IndexOutOfRange`.
