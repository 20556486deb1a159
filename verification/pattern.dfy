/** The compiled form of a route template and what it accepts.

    tinyrouter turns a template such as `/todo/{id}` into the Go regular expression
    `^/todo/([^/]+)[/]?$`. Only a tiny fragment of regular expressions ever arises:
    literal text, the capture group `([^/]+)` for each placeholder, and the fixed
    suffix `[/]?$`. This module represents that fragment as a sequence of pieces,
    renders it back to the regular-expression text, and gives two readings of
    acceptance: a declarative one (`Accepts`) and the leftmost-first search Go's
    `FindStringSubmatch` performs (`Submatch`), proved to agree. */
module Pattern {
  import opened Results

  /** Literal text matched verbatim, or a placeholder capturing one path segment. */
  datatype Piece = Lit(text: string) | Hole

  /** Regular-expression text of one placeholder. */
  const CaptureGroup: string := "([^/]+)"

  /** Regular-expression text closing every pattern: an optional '/' and the end of input. */
  const OptionalSlashEnd: string := "[/]?$"

  /** Number of placeholders, i.e. of capture groups in the rendered pattern. */
  function HoleCount(ps: seq<Piece>): nat
  {
    if |ps| == 0 then 0 else (if ps[0].Hole? then 1 else 0) + HoleCount(ps[1..])
  }

  /** What `[^/]+` accepts: one or more characters, none of them '/'. */
  predicate IsSegment(s: string)
  {
    |s| > 0 && forall i :: 0 <= i < |s| ==> s[i] != '/'
  }

  predicate AllSegments(cs: seq<string>)
  {
    forall k :: 0 <= k < |cs| ==> IsSegment(cs[k])
  }

  /** The pieces written left to right, the k-th placeholder replaced by `fills[k]`. */
  function Fill(ps: seq<Piece>, fills: seq<string>): string
    requires |fills| == HoleCount(ps)
  {
    if |ps| == 0 then []
    else match ps[0]
      case Lit(t) => t + Fill(ps[1..], fills)
      case Hole => fills[0] + Fill(ps[1..], fills[1..])
  }

  /** `n` copies of the capture group, one per placeholder. */
  function Groups(n: nat): (gs: seq<string>)
    ensures |gs| == n && forall k :: 0 <= k < n ==> gs[k] == CaptureGroup
  {
    if n == 0 then [] else [CaptureGroup] + Groups(n - 1)
  }

  /** The regular-expression text of a compiled pattern: anchored at the start, each
      placeholder a capture group, and the optional trailing '/' before the end. */
  function Render(ps: seq<Piece>): string
  {
    "^" + Fill(ps, Groups(HoleCount(ps))) + OptionalSlashEnd
  }

  /** Declarative acceptance: `p` is the template with every placeholder filled by a
      segment, optionally followed by one '/'. */
  ghost predicate Accepts(ps: seq<Piece>, p: string)
  {
    exists cs :: |cs| == HoleCount(ps) && AllSegments(cs) && (p == Fill(ps, cs) || p == Fill(ps, cs) + "/")
  }

  /** Every placeholder is followed by the end of the pattern or by literal text that
      starts with '/', so a capture always stops exactly at the next '/'. */
  predicate Separated(ps: seq<Piece>)
  {
    |ps| <= 1 ||
    ((ps[0].Hole? ==> ps[1].Lit? && |ps[1].text| > 0 && ps[1].text[0] == '/') && Separated(ps[1..]))
  }

  /** Length of the longest prefix of `s` without '/': how far a greedy `[^/]+` reaches. */
  function SegmentEnd(s: string): (n: nat)
    ensures n <= |s|
    ensures forall i :: 0 <= i < n ==> s[i] != '/'
    ensures n < |s| ==> s[n] == '/'
  {
    if |s| == 0 || s[0] == '/' then 0 else 1 + SegmentEnd(s[1..])
  }

  /** The captures Go's `FindStringSubmatch` reports (without the whole match) for the
      rendered pattern on `s`, or None when the pattern does not match. Each placeholder
      first takes its longest possible run and gives characters back only when the rest
      of the pattern cannot match; the final `[/]?$` accepts "" or "/". The result is a
      genuine decomposition of `s`. */
  function Submatch(ps: seq<Piece>, s: string): (r: Option<seq<string>>)
    ensures r.Some? ==> |r.value| == HoleCount(ps) && AllSegments(r.value)
    ensures r.Some? ==> s == Fill(ps, r.value) || s == Fill(ps, r.value) + "/"
    decreases |ps|, |s| + 1
  {
    if |ps| == 0 then
      (if s == "" || s == "/" then Some([]) else None)
    else match ps[0]
      case Lit(t) =>
        if t <= s then
          var r := Submatch(ps[1..], s[|t|..]);
          assert r.Some? ==> s == t + s[|t|..];
          r
        else None
      case Hole => TryHole(ps[1..], s, SegmentEnd(s))
  }

  /** A placeholder followed by `rest`, trying capture lengths k, k-1, ..., 1 in turn. */
  function TryHole(rest: seq<Piece>, s: string, k: nat): (r: Option<seq<string>>)
    requires k <= SegmentEnd(s)
    ensures r.Some? ==> |r.value| == 1 + HoleCount(rest) && AllSegments(r.value)
    ensures r.Some? ==> s == r.value[0] + Fill(rest, r.value[1..]) || s == r.value[0] + Fill(rest, r.value[1..]) + "/"
    decreases |rest| + 1, k
  {
    if k == 0 then None
    else match Submatch(rest, s[k..])
      case Some(cs) =>
        assert s == s[..k] + s[k..];
        assert ([s[..k]] + cs)[1..] == cs;
        Some([s[..k]] + cs)
      case None => TryHole(rest, s, k - 1)
  }

  /** Unfolding `Fill` over a literal followed by a placeholder. */
  lemma FillLitHole(x: string, rest: seq<Piece>, cs: seq<string>)
    requires |cs| == 1 + HoleCount(rest)
    ensures HoleCount([Lit(x), Hole] + rest) == 1 + HoleCount(rest)
    ensures Fill([Lit(x), Hole] + rest, cs) == x + cs[0] + Fill(rest, cs[1..])
  {
    var ps := [Lit(x), Hole] + rest;
    assert ps[1..] == [Hole] + rest;
    assert ps[1..][1..] == rest;
  }

  /** A segment at the front of `s` lies within the greedy run; when it is followed by
      '/' or the end, it is the whole run. */
  lemma SegmentPrefix(s: string, c: string, rest: string)
    requires s == c + rest && IsSegment(c)
    ensures s[..|c|] == c && s[|c|..] == rest
    ensures |c| <= SegmentEnd(s)
    ensures rest == [] || rest[0] == '/' ==> SegmentEnd(s) == |c|
  {
    assert forall i :: 0 <= i < |c| ==> s[i] == c[i];
  }

  lemma TailSegments(cs: seq<string>)
    requires |cs| > 0 && AllSegments(cs)
    ensures AllSegments(cs[1..])
  {
    forall m | 0 <= m < |cs[1..]| ensures IsSegment(cs[1..][m]) {
      assert cs[1..][m] == cs[m + 1];
    }
  }

  /** A greedy placeholder may be cut back: any shorter capture after which the rest
      matches is eventually tried. */
  lemma {:induction false} TryHoleReaches(rest: seq<Piece>, s: string, j: nat, k: nat)
    requires 1 <= k <= j <= SegmentEnd(s)
    requires Submatch(rest, s[k..]).Some?
    ensures TryHole(rest, s, j).Some?
    decreases j
  {
    if Submatch(rest, s[j..]).None? {
      assert j != k;
      TryHoleReaches(rest, s, j - 1, k);
      assert TryHole(rest, s, j) == TryHole(rest, s, j - 1);
    }
  }

  /** Completeness of the search: every filled template, with or without one trailing
      '/', is found. */
  lemma {:induction false} SubmatchComplete(ps: seq<Piece>, cs: seq<string>, tail: string)
    requires |cs| == HoleCount(ps) && AllSegments(cs)
    requires tail == "" || tail == "/"
    ensures Submatch(ps, Fill(ps, cs) + tail).Some?
    decreases |ps|
  {
    var s := Fill(ps, cs) + tail;
    if |ps| == 0 {
      assert s == tail;
    } else {
      match ps[0]
      case Lit(t) =>
        var s' := Fill(ps[1..], cs) + tail;
        assert s == t + s';
        assert t <= s && s[|t|..] == s';
        SubmatchComplete(ps[1..], cs, tail);
      case Hole =>
        var k := |cs[0]|;
        var s' := Fill(ps[1..], cs[1..]) + tail;
        assert s == cs[0] + s';
        SegmentPrefix(s, cs[0], s');
        TailSegments(cs);
        SubmatchComplete(ps[1..], cs[1..], tail);
        TryHoleReaches(ps[1..], s, SegmentEnd(s), k);
    }
  }

  /** The search and the declarative reading of the pattern agree on every path. */
  lemma SubmatchIffAccepts(ps: seq<Piece>, p: string)
    ensures Submatch(ps, p).Some? <==> Accepts(ps, p)
  {
    if Submatch(ps, p).Some? {
      var cs := Submatch(ps, p).value;
      assert |cs| == HoleCount(ps) && AllSegments(cs) && (p == Fill(ps, cs) || p == Fill(ps, cs) + "/");
    }
    if Accepts(ps, p) {
      var cs :| |cs| == HoleCount(ps) && AllSegments(cs) && (p == Fill(ps, cs) || p == Fill(ps, cs) + "/");
      if p == Fill(ps, cs) {
        assert p == Fill(ps, cs) + "";
        SubmatchComplete(ps, cs, "");
      } else {
        SubmatchComplete(ps, cs, "/");
      }
    }
  }

  /** A pattern of literal text alone accepts that text and the text followed by '/'. */
  lemma StaticAccepts(x: string, p: string)
    ensures Accepts([Lit(x)], p) <==> p == x || p == x + "/"
  {
    assert Fill([Lit(x)], []) == x + Fill([], []);
    assert AllSegments([]);
  }

  /** A placeholder never captures a '/': literal text followed by one placeholder
      rejects a rest that holds a '/' anywhere but at its end. */
  lemma InnerSlashRejected(x: string, t: string, k: nat)
    requires k < |t| - 1 && t[k] == '/'
    ensures !Accepts([Lit(x), Hole], x + t)
  {
    var ps := [Lit(x), Hole];
    var p := x + t;
    assert ps == [Lit(x), Hole] + [];
    FillLitHole(x, [], [""]);
    forall cs | |cs| == HoleCount(ps) && AllSegments(cs)
      ensures p != Fill(ps, cs) && p != Fill(ps, cs) + "/"
    {
      FillLitHole(x, [], cs);
      var c, rest := cs[0], p[|x|..];
      var front := t[..|t| - 1];
      assert rest == t && front[k] == '/';
      assert !IsSegment(t) && !IsSegment(front);
      assert p == x + c ==> c == rest;
      assert p == x + c + "/" ==> c + "/" == rest && c == front;
    }
  }

  /** A path that does not start with the pattern's leading literal is rejected. */
  lemma LeadingLiteralRequired(ps: seq<Piece>, p: string)
    requires |ps| > 0 && ps[0].Lit? && !(ps[0].text <= p)
    ensures !Accepts(ps, p)
  {
    SubmatchIffAccepts(ps, p);
  }

  /** For separated pieces the captures are determined by the path: the search returns
      exactly the segments the path was built from. */
  lemma {:induction false} SubmatchUnique(ps: seq<Piece>, cs: seq<string>, tail: string)
    requires Separated(ps)
    requires |cs| == HoleCount(ps) && AllSegments(cs)
    requires tail == "" || tail == "/"
    ensures Submatch(ps, Fill(ps, cs) + tail) == Some(cs)
    decreases |ps|
  {
    var s := Fill(ps, cs) + tail;
    if |ps| == 0 {
      assert s == tail;
    } else {
      assert Separated(ps[1..]);
      match ps[0]
      case Lit(t) =>
        var s' := Fill(ps[1..], cs) + tail;
        assert s == t + s';
        assert t <= s && s[|t|..] == s';
        SubmatchUnique(ps[1..], cs, tail);
      case Hole =>
        assert Fill(ps, cs) == cs[0] + Fill(ps[1..], cs[1..]);
        TailSegments(cs);
        SubmatchUnique(ps[1..], cs[1..], tail);
        HoleUnique(ps[1..], cs, tail);
    }
  }

  /** The placeholder step of `SubmatchUnique`: the greedy run is exactly the first
      capture, because what follows it starts with '/' or is the end. */
  lemma HoleUnique(rest: seq<Piece>, cs: seq<string>, tail: string)
    requires Separated([Hole] + rest)
    requires |cs| == 1 + HoleCount(rest) && AllSegments(cs)
    requires tail == "" || tail == "/"
    requires Submatch(rest, Fill(rest, cs[1..]) + tail) == Some(cs[1..])
    ensures TryHole(rest, cs[0] + Fill(rest, cs[1..]) + tail, |cs[0]|) == Some(cs)
    ensures SegmentEnd(cs[0] + Fill(rest, cs[1..]) + tail) == |cs[0]|
  {
    var s' := Fill(rest, cs[1..]) + tail;
    var s := cs[0] + s';
    assert cs[0] + Fill(rest, cs[1..]) + tail == s;
    SeparatedFollower(rest, cs[1..], tail);
    SegmentPrefix(s, cs[0], s');
    var k := |cs[0]|;
    assert s[k..] == s';
    TryHoleAt(rest, s, k, cs[1..]);
    assert [s[..k]] + cs[1..] == cs;
  }

  /** The first capture length whose rest matches is the one taken. */
  lemma TryHoleAt(rest: seq<Piece>, s: string, k: nat, more: seq<string>)
    requires 0 < k <= SegmentEnd(s)
    requires Submatch(rest, s[k..]) == Some(more)
    ensures TryHole(rest, s, k) == Some([s[..k]] + more)
  {
  }

  /** What follows a placeholder of separated pieces starts with '/' or is empty. */
  lemma SeparatedFollower(rest: seq<Piece>, fills: seq<string>, tail: string)
    requires Separated([Hole] + rest)
    requires |fills| == HoleCount(rest)
    requires tail == "" || tail == "/"
    ensures var s' := Fill(rest, fills) + tail; s' == [] || s'[0] == '/'
  {
    if |rest| > 0 {
      assert ([Hole] + rest)[1..] == rest;
      var t := rest[0].text;
      assert Fill(rest, fills) == t + Fill(rest[1..], fills);
    }
  }

  /** Under separation, two decompositions of the same path are the same. */
  lemma CapturesDetermined(ps: seq<Piece>, p: string, cs: seq<string>, ds: seq<string>)
    requires Separated(ps)
    requires |cs| == HoleCount(ps) && AllSegments(cs) && (p == Fill(ps, cs) || p == Fill(ps, cs) + "/")
    requires |ds| == HoleCount(ps) && AllSegments(ds) && (p == Fill(ps, ds) || p == Fill(ps, ds) + "/")
    ensures cs == ds
  {
    if p == Fill(ps, cs) {
      assert p == Fill(ps, cs) + "";
      SubmatchUnique(ps, cs, "");
    } else {
      SubmatchUnique(ps, cs, "/");
    }
    if p == Fill(ps, ds) {
      assert p == Fill(ps, ds) + "";
      SubmatchUnique(ps, ds, "");
    } else {
      SubmatchUnique(ps, ds, "/");
    }
  }
}
