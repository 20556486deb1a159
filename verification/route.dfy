/** A registered route of route.go: construction from a raw template (`newRoute`),
    matching a request (`match`) and binding the captured values to the parameter
    names (`params`, `combineParams`, `setParams`). A request is its method and URL
    path; a handler is an opaque identifier. */
module Routes {
  import opened Results
  import opened Pattern
  import opened Template

  /** Opaque identity of a handler function. */
  type HandlerId = nat

  /** The `http.HandlerFunc` a route is registered with; `None` is Go's nil function. */
  type Handler = Option<HandlerId>

  /** Parameter bindings of one request: Go's `map[string]interface{}` whose values are
      always strings. */
  type Bindings = map<string, string>

  /** `route`: the compiled pieces stand for the `*regexp.Regexp` Go keeps. */
  datatype Route = Route(paramNames: seq<string>, verb: string, path: string, pattern: seq<Piece>, handler: Handler)

  /** A template `newRoute` compiles: non-empty, starting with '/', and, after one
      trailing '/' is removed, with alternating braces and no '{' left open. */
  predicate ValidTemplate(raw: string)
  {
    && |raw| > 0
    && raw[0] == '/'
    && var path := Normalize(raw).value;
    && Alternating(path)
    && |BracePositions(path)| % 2 == 0
  }

  /** `newRoute`: normalise, locate braces, build the pattern and the names. The first
      failing step decides the error. An unclosed final '{' passes `bracesIndex` and
      then makes `makePatternString` index past the end of the list, and an empty
      template makes `normalize` index past the end of the string: both are runtime
      panics, reported here as `IndexOutOfRange`. */
  function NewRoute(verb: string, raw: string, handler: Handler): (r: Result<Route, RouteError>)
    ensures r.Success? <==> ValidTemplate(raw)
    ensures |raw| == 0 ==> r == Failure(IndexOutOfRange)
    ensures |raw| > 0 && raw[0] != '/' ==> r == Failure(InvalidPathError)
    ensures |raw| > 0 && raw[0] == '/' && !Alternating(Normalize(raw).value) ==> r == Failure(UnbalancedBracesError)
    ensures (|raw| > 0 && raw[0] == '/' && Alternating(Normalize(raw).value)
             && |BracePositions(Normalize(raw).value)| % 2 == 1) ==> r == Failure(IndexOutOfRange)
    ensures r.Success? ==> r.value.verb == verb && r.value.path == raw && r.value.handler == handler
    ensures r.Success? ==> |r.value.paramNames| == HoleCount(r.value.pattern)
  {
    if |raw| == 0 then Failure(IndexOutOfRange)
    else
      var path :- Normalize(raw);
      var list :- BracesIndex(path);
      if |list| % 2 != 0 then Failure(IndexOutOfRange)
      else
        AlternatingPaired(path);
        PairedBracesSliceable(path, list);
        Success(Route(ExtractParam(path, list), verb, raw, MakePieces(path, list), handler))
  }

  /** The compiled route is the normalised template's pieces and names. */
  lemma NewRouteCompiles(verb: string, raw: string, handler: Handler)
    requires NewRoute(verb, raw, handler).Success?
    ensures var path := Normalize(raw).value;
      var list := BracePositions(path);
      && PairedBraces(path, list)
      && PairsInRange(list, |path|) && GapsInRange(list, |path|)
      && NewRoute(verb, raw, handler).value.pattern == MakePieces(path, list)
      && NewRoute(verb, raw, handler).value.paramNames == ExtractParam(path, list)
  {
    var path := Normalize(raw).value;
    AlternatingPaired(path);
    PairedBracesSliceable(path, BracePositions(path));
  }

  /** A template without braces compiles to one literal, the normalised template, and
      no parameter names. */
  lemma StaticRoute(verb: string, raw: string, handler: Handler)
    requires |raw| > 0 && raw[0] == '/'
    requires forall i :: 0 <= i < |raw| ==> !IsBrace(raw[i])
    ensures NewRoute(verb, raw, handler) == Success(Route([], verb, raw, [Lit(Normalize(raw).value)], handler))
  {
    var path := Normalize(raw).value;
    NormalizePrefix(raw);
    BracePositionsUnique(path, []);
  }

  /** The regular-expression text of a route's pattern (`route.pattern.String()`). */
  function PatternString(r: Route): string
  {
    Render(r.pattern)
  }

  /** `match`: exact method equality and a successful regular-expression search. */
  function Match(r: Route, verb: string, path: string): bool
  {
    r.verb == verb && Submatch(r.pattern, path).Some?
  }

  /** A route matches exactly when the method is equal and the pattern accepts the path. */
  lemma MatchIffAccepts(r: Route, verb: string, path: string)
    ensures Match(r, verb, path) <==> r.verb == verb && Accepts(r.pattern, path)
  {
    SubmatchIffAccepts(r.pattern, path);
  }

  /** `params`: the captured values, in placeholder order. Go slices the submatch
      result, which panics when the pattern does not match, so a match is required. */
  function Params(r: Route, path: string): (values: seq<string>)
    requires Accepts(r.pattern, path)
    ensures |values| == HoleCount(r.pattern) && AllSegments(values)
    ensures path == Fill(r.pattern, values) || path == Fill(r.pattern, values) + "/"
    ensures Separated(r.pattern) ==> forall cs ::
      |cs| == HoleCount(r.pattern) && AllSegments(cs) && (path == Fill(r.pattern, cs) || path == Fill(r.pattern, cs) + "/")
      ==> cs == values
  {
    SubmatchIffAccepts(r.pattern, path);
    var values := Submatch(r.pattern, path).value;
    SegmentsDetermined(r.pattern, path, values);
    values
  }

  lemma SegmentsDetermined(ps: seq<Piece>, p: string, values: seq<string>)
    requires |values| == HoleCount(ps) && AllSegments(values) && (p == Fill(ps, values) || p == Fill(ps, values) + "/")
    ensures Separated(ps) ==> forall cs ::
      |cs| == HoleCount(ps) && AllSegments(cs) && (p == Fill(ps, cs) || p == Fill(ps, cs) + "/")
      ==> cs == values
  {
    if Separated(ps) {
      forall cs | |cs| == HoleCount(ps) && AllSegments(cs) && (p == Fill(ps, cs) || p == Fill(ps, cs) + "/")
        ensures cs == values
      {
        CapturesDetermined(ps, p, cs, values);
      }
    }
  }

  /** Position i holds the last occurrence of its name: no later name repeats it. */
  predicate LastOccurrence(names: seq<string>, i: nat)
    requires i < |names|
  {
    forall j :: i < j < |names| ==> names[j] != names[i]
  }

  /** `combineParams`: when the counts agree, bind each name to the value at the same
      position (a later duplicate name overwrites an earlier one); otherwise leave the
      bindings as they are. */
  function CombineParams(names: seq<string>, values: seq<string>, box: Bindings): (out: Bindings)
    ensures |names| != |values| ==> out == box
    ensures |names| == |values| ==> out.Keys == box.Keys + (set k | k in names)
    ensures |names| == |values| ==> forall i :: 0 <= i < |names| && LastOccurrence(names, i) ==> out[names[i]] == values[i]
    ensures forall k :: k in box && k !in names ==> out[k] == box[k]
  {
    if |names| != |values| then box else BindAll(names, values, box)
  }

  /** The loop of `combineParams`, one name per call. */
  function BindAll(names: seq<string>, values: seq<string>, box: Bindings): (out: Bindings)
    requires |names| == |values|
    ensures out.Keys == box.Keys + (set k | k in names)
    ensures forall i :: 0 <= i < |names| && LastOccurrence(names, i) ==> out[names[i]] == values[i]
    ensures forall k :: k in box && k !in names ==> out[k] == box[k]
    decreases |names|
  {
    if |names| == 0 then box
    else
      var out := BindAll(names[1..], values[1..], box[names[0] := values[0]]);
      NamesTail(names);
      out
  }

  /** How the names split into the first one and the rest. */
  lemma NamesTail(names: seq<string>)
    requires |names| > 0
    ensures (set k | k in names) == {names[0]} + (set k | k in names[1..])
    ensures forall i :: 0 < i < |names| && LastOccurrence(names, i) ==> LastOccurrence(names[1..], i - 1)
    ensures LastOccurrence(names, 0) ==> names[0] !in names[1..]
  {
    assert names == [names[0]] + names[1..];
  }

  /** `setParams`: a route without parameter names leaves the bindings untouched;
      otherwise the captured values are combined into them. */
  function SetParams(r: Route, path: string, box: Bindings): (out: Bindings)
    requires |r.paramNames| == 0 || Accepts(r.pattern, path)
    ensures |r.paramNames| == 0 ==> out == box
    ensures |r.paramNames| != HoleCount(r.pattern) ==> out == box
    ensures |r.paramNames| == HoleCount(r.pattern) ==>
      out.Keys == box.Keys + (set k | k in r.paramNames)
    ensures forall k :: k in box && k !in r.paramNames ==> out[k] == box[k]
    ensures 0 < |r.paramNames| == HoleCount(r.pattern) ==>
      forall i :: 0 <= i < |r.paramNames| && LastOccurrence(r.paramNames, i) ==> out[r.paramNames[i]] == Params(r, path)[i]
  {
    if |r.paramNames| == 0 then box else CombineParams(r.paramNames, Params(r, path), box)
  }

  /** Binding a route whose pattern is separated and whose names match its
      placeholders one to one: the path built from segments `caps` binds each name to
      the segment in its place, and no other name. */
  lemma SeparatedRouteBindings(r: Route, path: string, caps: seq<string>)
    requires Separated(r.pattern) && |r.paramNames| == HoleCount(r.pattern)
    requires |caps| == HoleCount(r.pattern) && AllSegments(caps)
    requires path == Fill(r.pattern, caps) || path == Fill(r.pattern, caps) + "/"
    ensures Submatch(r.pattern, path) == Some(caps)
    ensures Match(r, r.verb, path)
    ensures SetParams(r, path, map[]).Keys == (set k | k in r.paramNames)
    ensures forall i :: 0 <= i < |r.paramNames| && LastOccurrence(r.paramNames, i) ==>
      SetParams(r, path, map[])[r.paramNames[i]] == caps[i]
  {
    if path == Fill(r.pattern, caps) {
      assert path == Fill(r.pattern, caps) + "";
      SubmatchUnique(r.pattern, caps, "");
    } else {
      SubmatchUnique(r.pattern, caps, "/");
    }
    assert Params(r, path) == caps;
  }

  /** Binding a compiled route whose every '}' is followed by '/' or the end of the
      template: its pattern is separated, so the bindings are exactly the segments the
      path was built from. */
  lemma CompiledRouteBindings(verb: string, raw: string, handler: Handler, path: string, caps: seq<string>)
    requires NewRoute(verb, raw, handler).Success?
    requires forall i :: 0 <= i < |raw| - 1 && raw[i] == '}' ==> raw[i + 1] == '/'
    requires var r := NewRoute(verb, raw, handler).value;
      |caps| == HoleCount(r.pattern) && AllSegments(caps)
      && (path == Fill(r.pattern, caps) || path == Fill(r.pattern, caps) + "/")
    ensures var r := NewRoute(verb, raw, handler).value;
      && Separated(r.pattern)
      && Match(r, verb, path)
      && Submatch(r.pattern, path) == Some(caps)
      && SetParams(r, path, map[]).Keys == (set k | k in r.paramNames)
      && forall i :: 0 <= i < |r.paramNames| && LastOccurrence(r.paramNames, i) ==>
           SetParams(r, path, map[])[r.paramNames[i]] == caps[i]
  {
    var r := NewRoute(verb, raw, handler).value;
    CompiledRouteSeparated(verb, raw, handler);
    SeparatedRouteBindings(r, path, caps);
  }

  lemma CompiledRouteSeparated(verb: string, raw: string, handler: Handler)
    requires NewRoute(verb, raw, handler).Success?
    requires forall i :: 0 <= i < |raw| - 1 && raw[i] == '}' ==> raw[i + 1] == '/'
    ensures Separated(NewRoute(verb, raw, handler).value.pattern)
  {
    var norm := Normalize(raw).value;
    NewRouteCompiles(verb, raw, handler);
    assert forall i :: 0 <= i < |norm| ==> norm[i] == raw[i];
    CompiledPiecesSeparated(norm);
  }
}
