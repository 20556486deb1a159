/** The template compiler of route.go: normalising a raw route template, locating its
    braces, taking out the parameter names and building the pattern pieces (and the
    regular-expression text Go compiles from them).

    Go strings are indexed by byte; here a template is a `seq<char>` and every index is
    a character position. The two differ once a multi-byte character comes before a
    brace (`/é/{id}` has braces at bytes 4 and 7, characters 3 and 6); only the names
    and literal pieces sliced at those positions agree. */
module Template {
  import opened Results
  import opened Pattern

  /** The two errors route.go declares, plus the index-out-of-range runtime panic that
      Go raises where the code indexes past the end of a string or slice. */
  datatype RouteError = InvalidPathError | UnbalancedBracesError | IndexOutOfRange

  /** `normalize`: the template must start with '/'; one trailing '/' is removed.
      Go reads `raw[0]` unguarded, so the empty template is outside its domain. */
  function Normalize(raw: string): (r: Result<string, RouteError>)
    requires |raw| > 0
    ensures r.Failure? <==> raw[0] != '/'
    ensures r.Failure? ==> r.error == InvalidPathError
    ensures r.Success? ==> r.value + "/" == raw || (r.value == raw && raw[|raw| - 1] != '/')
  {
    if raw[0] != '/' then Failure(InvalidPathError)
    else if raw[|raw| - 1] == '/' then Success(raw[..|raw| - 1])
    else Success(raw)
  }

  /** A successful normalisation keeps a prefix of the template, at most one character
      shorter; the root template "/" becomes the empty string. */
  lemma NormalizePrefix(raw: string)
    requires |raw| > 0 && raw[0] == '/'
    ensures Normalize(raw).Success?
    ensures var path := Normalize(raw).value;
      path <= raw && |raw| - 1 <= |path| <= |raw| && (raw == "/" ==> path == "")
  {
  }

  predicate IsBrace(c: char)
  {
    c == '{' || c == '}'
  }

  /** Positions of all '{' and '}' characters of `s`, in increasing order. */
  function BracePositions(s: string): (ps: seq<nat>)
    ensures forall j :: 0 <= j < |ps| ==> ps[j] < |s| && IsBrace(s[ps[j]])
    ensures forall j, k :: 0 <= j < k < |ps| ==> ps[j] < ps[k]
    ensures forall i :: 0 <= i < |s| && IsBrace(s[i]) ==> i in ps
  {
    if |s| == 0 then []
    else
      var init := s[..|s| - 1];
      assert forall i :: 0 <= i < |init| ==> init[i] == s[i];
      BracePositions(init) + (if IsBrace(s[|s| - 1]) then [|s| - 1] else [])
  }

  /** The brace expected at position j of the index list: '{' at even, '}' at odd positions. */
  function Expected(j: nat): char
  {
    if j % 2 == 0 then '{' else '}'
  }

  /** Braces alternate '{', '}', '{', ...: no '{' while one is open and no '}' while none
      is. A final '{' that is never closed is allowed. */
  predicate Alternating(s: string)
  {
    var ps := BracePositions(s);
    forall j :: 0 <= j < |ps| ==> s[ps[j]] == Expected(j)
  }

  /** Extending a prefix by one character extends its brace positions by at most that
      character's index, and decides whether alternation survives. */
  lemma ScanStep(path: string, i: nat)
    requires i < |path|
    ensures BracePositions(path[..i + 1]) == BracePositions(path[..i]) + (if IsBrace(path[i]) then [i] else [])
    ensures Alternating(path[..i]) ==>
      (Alternating(path[..i + 1]) <==>
        (IsBrace(path[i]) ==> path[i] == Expected(|BracePositions(path[..i])|)))
    ensures !Alternating(path[..i + 1]) ==> !Alternating(path)
  {
    assert path[..i + 1][..i] == path[..i];
    AlternatingStep(path, i);
    if !Alternating(path[..i + 1]) {
      BrokenPrefix(path, i + 1);
    }
  }

  lemma AlternatingStep(path: string, i: nat)
    requires i < |path|
    requires BracePositions(path[..i + 1]) == BracePositions(path[..i]) + (if IsBrace(path[i]) then [i] else [])
    ensures Alternating(path[..i]) ==>
      (Alternating(path[..i + 1]) <==> (IsBrace(path[i]) ==> path[i] == Expected(|BracePositions(path[..i])|)))
  {
    var s, t := path[..i], path[..i + 1];
    assert s == t[..i] && t[i] == path[i];
    if Alternating(s) {
      if IsBrace(path[i]) {
        AlternatingExtendBrace(s, t);
      } else {
        AlternatingExtendPlain(s, t);
      }
    }
  }

  lemma AlternatingExtendPlain(s: string, t: string)
    requires |t| == |s| + 1 && s == t[..|s|]
    requires BracePositions(t) == BracePositions(s) && Alternating(s)
    ensures Alternating(t)
  {
    var ps := BracePositions(s);
    forall m | 0 <= m < |ps| ensures t[ps[m]] == Expected(m) {
      assert t[ps[m]] == s[ps[m]];
    }
  }

  lemma AlternatingExtendBrace(s: string, t: string)
    requires |t| == |s| + 1 && s == t[..|s|]
    requires BracePositions(t) == BracePositions(s) + [|s|] && Alternating(s)
    ensures Alternating(t) <==> t[|s|] == Expected(|BracePositions(s)|)
  {
    ExtendedAlternates(s, t, BracePositions(s));
  }

  /** Alternation of given brace positions survives appending one more brace exactly
      when that brace is the expected one. */
  lemma ExtendedAlternates(s: string, t: string, pre: seq<nat>)
    requires |t| == |s| + 1 && s == t[..|s|]
    requires forall j :: 0 <= j < |pre| ==> pre[j] < |s| && s[pre[j]] == Expected(j)
    ensures (forall j :: 0 <= j < |pre| + 1 ==> t[(pre + [|s|])[j]] == Expected(j)) <==> t[|s|] == Expected(|pre|)
  {
    var next := pre + [|s|];
    assert next[|pre|] == |s|;
    if t[|s|] == Expected(|pre|) {
      forall j | 0 <= j < |pre| + 1 ensures t[next[j]] == Expected(j) {
        if j < |pre| {
          assert next[j] == pre[j];
        }
      }
    }
  }

  /** A prefix that breaks alternation breaks it for the whole path. */
  lemma BrokenPrefix(path: string, i: nat)
    requires i <= |path|
    requires !Alternating(path[..i])
    ensures !Alternating(path)
  {
    PrefixPositions(path, i);
    var next := BracePositions(path[..i]);
    var all := BracePositions(path);
    var m :| 0 <= m < |next| && path[..i][next[m]] != Expected(m);
    assert all[m] == next[m];
  }

  /** The brace positions of a prefix are a prefix of the brace positions. */
  lemma {:induction false} PrefixPositions(path: string, i: nat)
    requires i <= |path|
    ensures BracePositions(path[..i]) <= BracePositions(path)
    decreases |path| - i
  {
    if i == |path| {
      assert path[..i] == path;
    } else {
      assert path[..i + 1][..i] == path[..i];
      PrefixPositions(path, i + 1);
    }
  }

  /** The brace positions are the only increasing list of in-range brace indices that
      misses no brace. */
  lemma BracePositionsUnique(s: string, ps: seq<nat>)
    requires forall j :: 0 <= j < |ps| ==> ps[j] < |s| && IsBrace(s[ps[j]])
    requires forall j :: 0 < j < |ps| ==> ps[j - 1] < ps[j]
    requires forall i :: 0 <= i < |s| && IsBrace(s[i]) ==> i in ps
    ensures ps == BracePositions(s)
  {
    SameBraces(s, ps);
    IncreasingSameElements(ps, BracePositions(s));
  }

  /** A list of in-range brace indices that misses no brace holds exactly the brace
      positions. */
  lemma SameBraces(s: string, ps: seq<nat>)
    requires forall j :: 0 <= j < |ps| ==> ps[j] < |s| && IsBrace(s[ps[j]])
    requires forall i :: 0 <= i < |s| && IsBrace(s[i]) ==> i in ps
    ensures forall x :: x in ps <==> x in BracePositions(s)
  {
  }

  /** Two strictly increasing lists with the same elements are equal. */
  lemma {:induction false} IncreasingSameElements(a: seq<nat>, b: seq<nat>)
    requires forall j :: 0 < j < |a| ==> a[j - 1] < a[j]
    requires forall j, k :: 0 <= j < k < |b| ==> b[j] < b[k]
    requires forall x :: x in a <==> x in b
    ensures a == b
    decreases |a|
  {
    if |a| > 0 {
      assert a[0] in b && b[0] in b;
      IncreasingFirstLeast(a);
      var k :| 0 <= k < |b| && b[k] == a[0];
      var m :| 0 <= m < |a| && a[m] == b[0];
      assert k == 0;
      SameTails(a, b);
      IncreasingSameElements(a[1..], b[1..]);
    } else {
      FirstElement(b);
    }
  }

  /** A non-empty list holds its first element; called where the facts in scope clash, so
      that no index is checked there. */
  lemma FirstElement(b: seq<nat>)
    ensures |b| > 0 ==> b[0] in b
  {
  }

  lemma SameTails(a: seq<nat>, b: seq<nat>)
    requires |a| > 0 && |b| > 0 && a[0] == b[0]
    requires forall j :: 0 < j < |a| ==> a[0] < a[j]
    requires forall j, k :: 0 <= j < k < |b| ==> b[j] < b[k]
    requires forall x :: x in a <==> x in b
    ensures forall x :: x in a[1..] <==> x in b[1..]
  {
    forall x
      ensures x in a[1..] <==> x in b[1..]
    {
      if x in a[1..] {
        var j :| 0 <= j < |a[1..]| && a[1..][j] == x;
        assert a[j + 1] == x && x in b;
        var k :| 0 <= k < |b| && b[k] == x;
        assert k != 0;
        assert b[1..][k - 1] == x;
      }
      if x in b[1..] {
        var k :| 0 <= k < |b[1..]| && b[1..][k] == x;
        assert b[k + 1] == x && x in a;
        var j :| 0 <= j < |a| && a[j] == x;
        assert b[0] < b[k + 1];
        assert j != 0;
        assert a[1..][j - 1] == x;
      }
    }
  }

  lemma {:induction false} IncreasingFirstLeast(a: seq<nat>)
    requires forall j :: 0 < j < |a| ==> a[j - 1] < a[j]
    ensures forall j :: 0 < j < |a| ==> a[0] < a[j]
    decreases |a|
  {
    if |a| > 2 {
      IncreasingFirstLeast(a[1..]);
      assert forall j :: 1 < j < |a| ==> a[1..][j - 1] == a[j];
    }
  }

  /** The loop of `bracesIndex`, one character per call: `depth` is Go's `checkBraces`
      counter and `acc` the index list built so far. */
  function ScanBraces(path: string, i: nat, depth: int, acc: seq<nat>): (r: Result<seq<nat>, RouteError>)
    requires i <= |path|
    requires acc == BracePositions(path[..i]) && Alternating(path[..i]) && depth == |acc| % 2
    ensures r.Success? <==> Alternating(path)
    ensures r.Success? ==> r.value == BracePositions(path)
    ensures r.Failure? ==> r.error == UnbalancedBracesError
    decreases |path| - i
  {
    if i == |path| then
      assert path[..i] == path;
      Success(acc)
    else
      ScanAdvance(path, i, acc);
      ExpectedAtDepth(depth, |acc|);
      if path[i] == '{' then
        if depth + 1 != 1 then Failure(UnbalancedBracesError)
        else ScanBraces(path, i + 1, depth + 1, acc + [i])
      else if path[i] == '}' then
        if depth - 1 != 0 then Failure(UnbalancedBracesError)
        else ScanBraces(path, i + 1, depth - 1, acc + [i])
      else
        ScanBraces(path, i + 1, depth, acc)
  }

  /** The brace expected next is '{' at depth 0 and '}' at depth 1. */
  lemma ExpectedAtDepth(depth: int, n: nat)
    requires depth == n % 2
    ensures Expected(n) == '{' <==> depth + 1 == 1
    ensures Expected(n) == '}' <==> depth - 1 == 0
  {
  }

  /** One step of the scan in terms of the list built so far: a non-brace keeps it, the
      expected brace extends it, and an unexpected brace breaks alternation for good. */
  lemma ScanAdvance(path: string, i: nat, acc: seq<nat>)
    requires i < |path| && acc == BracePositions(path[..i]) && Alternating(path[..i])
    ensures !IsBrace(path[i]) ==> acc == BracePositions(path[..i + 1]) && Alternating(path[..i + 1])
    ensures IsBrace(path[i]) && path[i] == Expected(|acc|) ==>
      acc + [i] == BracePositions(path[..i + 1]) && Alternating(path[..i + 1])
    ensures IsBrace(path[i]) && path[i] != Expected(|acc|) ==> !Alternating(path)
  {
    ScanStep(path, i);
  }

  /** `bracesIndex`: the index of every brace, in order, provided braces alternate
      starting with '{'; otherwise `UnbalancedBracesError`. */
  function BracesIndex(path: string): (r: Result<seq<nat>, RouteError>)
    ensures r.Success? <==> Alternating(path)
    ensures r.Failure? ==> r.error == UnbalancedBracesError
    ensures r.Success? ==> r.value == BracePositions(path)
    ensures r.Success? ==> forall j :: 0 <= j < |r.value| ==>
      r.value[j] < |path| && path[r.value[j]] == (if j % 2 == 0 then '{' else '}')
    ensures r.Success? ==> forall j, k :: 0 <= j < k < |r.value| ==> r.value[j] < r.value[k]
    ensures r.Success? ==> forall i :: 0 <= i < |path| && IsBrace(path[i]) ==> i in r.value
  {
    assert path[..0] == [];
    ScanBraces(path, 0, 0, [])
  }

  /** Every even-indexed pair (list[j], list[j+1]) can be sliced as `path[list[j]+1:list[j+1]]`
      of a string of length n, as `extractParam` does. */
  predicate PairsInRange(list: seq<nat>, n: nat)
  {
    && |list| % 2 == 0
    && (forall j, k {:trigger list[j], list[k]} :: 0 <= j && k == j + 1 < |list| && j % 2 == 0 ==> list[j] < list[k] <= n)
  }

  /** The literal runs `path[start:list[j]]` that `makePatternString` slices exist: every
      opening index is at most n and lies after the previous closing index. */
  predicate GapsInRange(list: seq<nat>, n: nat)
  {
    && |list| % 2 == 0
    && (forall j :: 0 <= j < |list| && j % 2 == 0 ==> list[j] <= n)
    && (forall j, k {:trigger list[j], list[k]} :: 0 <= j && k == j + 1 < |list| && k % 2 == 0 ==> list[j] < list[k])
  }

  /** The text strictly between positions `open` and `close`. */
  function Between(path: string, open: nat, close: nat): string
    requires open < close <= |path|
  {
    path[open + 1..close]
  }

  /** `extractParam`: the text strictly between each pair of indices. */
  function ExtractParam(path: string, list: seq<nat>): (names: seq<string>)
    requires PairsInRange(list, |path|)
    ensures |names| == |list| / 2
    ensures forall j :: 0 <= j < |list| && j % 2 == 0 ==> names[j / 2] == Between(path, list[j], list[j + 1])
  {
    NamesFromIndex(path, list, 0);
    NamesFrom(path, list, 0)
  }

  function NamesFrom(path: string, list: seq<nat>, i: nat): (names: seq<string>)
    requires PairsInRange(list, |path|) && i % 2 == 0 && i <= |list|
    ensures |names| == (|list| - i) / 2
    decreases |list| - i
  {
    if i == |list| then []
    else [Between(path, list[i], list[i + 1])] + NamesFrom(path, list, i + 2)
  }

  /** The name of each pair from position i on sits at its pair's position. */
  lemma NamesFromIndex(path: string, list: seq<nat>, i: nat)
    requires PairsInRange(list, |path|) && i % 2 == 0 && i <= |list|
    ensures forall j :: i <= j < |list| && j % 2 == 0 ==>
      NamesFrom(path, list, i)[(j - i) / 2] == Between(path, list[j], list[j + 1])
  {
    forall j | i <= j < |list| && j % 2 == 0
      ensures NamesFrom(path, list, i)[(j - i) / 2] == Between(path, list[j], list[j + 1])
    {
      var k := (j - i) / 2;
      assert j == i + 2 * k;
      NameAt(path, list, i, k);
    }
  }

  /** The k-th name the loop from pair i on produces is the name of pair i + 2k. */
  lemma {:induction false} NameAt(path: string, list: seq<nat>, i: nat, k: nat)
    requires PairsInRange(list, |path|) && i % 2 == 0 && i + 2 * k < |list|
    ensures i + 2 * k + 1 < |list| && k < |NamesFrom(path, list, i)|
    ensures NamesFrom(path, list, i)[k] == Between(path, list[i + 2 * k], list[i + 2 * k + 1])
    decreases k
  {
    if k > 0 {
      NameAt(path, list, i + 2, k - 1);
      assert i + 2 + 2 * (k - 1) == i + 2 * k;
    }
  }

  /** The pieces `makePatternString` writes. With no braces the whole path is one literal.
      Otherwise each pair contributes the literal text before its '{' and a placeholder;
      the text after the last '}' is never written. */
  function MakePieces(path: string, list: seq<nat>): (ps: seq<Piece>)
    requires GapsInRange(list, |path|)
    ensures HoleCount(ps) == |list| / 2
    ensures |list| == 0 ==> ps == [Lit(path)]
  {
    if |list| == 0 then [Lit(path)] else PiecesFrom(path, list, 0, 0)
  }

  function PiecesFrom(path: string, list: seq<nat>, i: nat, start: nat): (ps: seq<Piece>)
    requires GapsInRange(list, |path|) && i % 2 == 0 && i <= |list|
    requires i < |list| ==> start <= list[i]
    ensures HoleCount(ps) == (|list| - i) / 2
    decreases |list| - i
  {
    if i == |list| then []
    else
      var rest := PiecesFrom(path, list, i + 2, list[i + 1] + 1);
      FillLitHole(path[start..list[i]], rest, Groups(1 + HoleCount(rest)));
      [Lit(path[start..list[i]]), Hole] + rest
  }

  /** `makePatternString`: the regular-expression text of the pieces. */
  function MakePatternString(path: string, list: seq<nat>): (re: string)
    requires GapsInRange(list, |path|)
    ensures |list| == 0 ==> re == "^" + path + OptionalSlashEnd
  {
    var ps := MakePieces(path, list);
    assert |list| == 0 ==> Fill(ps, Groups(0)) == path;
    Render(ps)
  }

  /** Names wrapped back in braces, as they appear in a template. */
  function Braced(names: seq<string>): (bs: seq<string>)
    ensures |bs| == |names|
  {
    if |names| == 0 then [] else ["{" + names[0] + "}"] + Braced(names[1..])
  }

  /** Cutting a slice around a brace pair: the literal before it, the '{', the name and
      the '}'. */
  lemma SliceAroundPair(path: string, start: nat, open: nat, close: nat)
    requires start <= open < close < |path|
    requires path[open] == '{' && path[close] == '}'
    ensures path[start..close + 1] == path[start..open] + ("{" + Between(path, open, close) + "}")
  {
    assert path[start..close + 1] == path[start..open] + [path[open]] + path[open + 1..close] + [path[close]];
  }

  /** An index list of brace pairs for `path`: even length, strictly increasing, in
      range, '{' at even and '}' at odd positions. */
  predicate PairedBraces(path: string, list: seq<nat>)
  {
    && |list| % 2 == 0
    && (forall j :: 0 <= j < |list| ==> list[j] < |path| && path[list[j]] == Expected(j))
    && (forall j, k {:trigger list[j], list[k]} :: 0 <= j && k == j + 1 < |list| ==> list[j] < list[k])
  }

  lemma PairedBracesSliceable(path: string, list: seq<nat>)
    requires PairedBraces(path, list)
    ensures PairsInRange(list, |path|) && GapsInRange(list, |path|)
  {
    forall j | 0 <= j < |list| && j % 2 == 0
      ensures list[j] < list[j + 1] <= |path|
    {
      assert j + 1 < |list|;
    }
  }

  /** The index list `bracesIndex` returns for a template with closed braces. */
  lemma AlternatingPaired(path: string)
    requires Alternating(path) && |BracePositions(path)| % 2 == 0
    ensures PairedBraces(path, BracePositions(path))
  {
  }

  /** One step of the round trip: the first pair's literal, placeholder and name. */
  lemma RoundTripStep(path: string, list: seq<nat>, i: nat, start: nat)
    requires PairsInRange(list, |path|) && GapsInRange(list, |path|)
    requires i % 2 == 0 && i + 1 < |list| && start <= list[i] && list[i + 1] < |path|
    requires path[list[i]] == '{' && path[list[i + 1]] == '}'
    ensures i + 2 < |list| ==> list[i + 1] + 1 <= list[i + 2]
    ensures Fill(PiecesFrom(path, list, i, start), Braced(NamesFrom(path, list, i)))
         == path[start..list[i + 1] + 1]
            + Fill(PiecesFrom(path, list, i + 2, list[i + 1] + 1), Braced(NamesFrom(path, list, i + 2)))
  {
    PairUnfold(path, list, i, start);
    var o, c := list[i], list[i + 1];
    ComposeStep(path, start, o, c, PiecesFrom(path, list, i, start), NamesFrom(path, list, i),
      PiecesFrom(path, list, i + 2, c + 1), NamesFrom(path, list, i + 2));
  }

  /** A literal and a placeholder filled with the braced name give back the template
      slice up to and including the '}'. */
  lemma ComposeStep(path: string, start: nat, o: nat, c: nat, ps: seq<Piece>, ns: seq<string>, rest: seq<Piece>, names: seq<string>)
    requires start <= o < c < |path| && path[o] == '{' && path[c] == '}'
    requires |names| == HoleCount(rest)
    requires ps == [Lit(path[start..o]), Hole] + rest && ns == [Between(path, o, c)] + names
    ensures |Braced(ns)| == HoleCount(ps)
    ensures Fill(ps, Braced(ns)) == path[start..c + 1] + Fill(rest, Braced(names))
  {
    FillPairStep(path[start..o], Between(path, o, c), rest, names);
    SliceAroundPair(path, start, o, c);
  }

  /** Filling a literal and a placeholder with the braced name rebuilds the literal, the
      name in braces, and then the rest. */
  lemma FillPairStep(x: string, n: string, rest: seq<Piece>, names: seq<string>)
    requires |names| == HoleCount(rest)
    ensures |Braced([n] + names)| == HoleCount([Lit(x), Hole] + rest)
    ensures Fill([Lit(x), Hole] + rest, Braced([n] + names)) == x + ("{" + n + "}") + Fill(rest, Braced(names))
  {
    var bs := Braced([n] + names);
    assert bs[1..] == Braced(names);
    FillLitHole(x, rest, bs);
  }

  /** The first pair from position i: one literal and placeholder, one name. */
  lemma PairUnfold(path: string, list: seq<nat>, i: nat, start: nat)
    requires PairsInRange(list, |path|) && GapsInRange(list, |path|)
    requires i % 2 == 0 && i + 1 < |list| && start <= list[i] && list[i + 1] < |path|
    ensures list[i] < list[i + 1]
    ensures i + 2 < |list| ==> list[i + 1] + 1 <= list[i + 2]
    ensures PiecesFrom(path, list, i, start) == [Lit(path[start..list[i]]), Hole] + PiecesFrom(path, list, i + 2, list[i + 1] + 1)
    ensures NamesFrom(path, list, i) == [Between(path, list[i], list[i + 1])] + NamesFrom(path, list, i + 2)
  {
  }

  lemma {:induction false} PiecesFromRoundTrip(path: string, list: seq<nat>, i: nat, start: nat)
    requires PairedBraces(path, list)
    requires PairsInRange(list, |path|) && GapsInRange(list, |path|)
    requires forall j :: 0 <= j < |list| ==> list[j] <= list[|list| - 1]
    requires i % 2 == 0 && i < |list| && start <= list[i]
    ensures Fill(PiecesFrom(path, list, i, start), Braced(NamesFrom(path, list, i))) == path[start..list[|list| - 1] + 1]
    decreases |list| - i
  {
    PairAt(path, list, i);
    RoundTripStep(path, list, i, start);
    var c := list[i + 1];
    if i + 2 < |list| {
      PiecesFromRoundTrip(path, list, i + 2, c + 1);
      JoinPair(path, list, i, start);
    } else {
      LastPair(path, list, i, start);
    }
  }

  /** A pair that is not the last: its step followed by the rebuilt rest is the
      template up to the last '}'. */
  lemma JoinPair(path: string, list: seq<nat>, i: nat, start: nat)
    requires PairsInRange(list, |path|) && GapsInRange(list, |path|)
    requires i % 2 == 0 && i + 2 < |list| && start <= list[i] && list[i + 1] + 1 <= list[i + 2] <= list[|list| - 1] < |path|
    requires Fill(PiecesFrom(path, list, i, start), Braced(NamesFrom(path, list, i)))
         == path[start..list[i + 1] + 1]
            + Fill(PiecesFrom(path, list, i + 2, list[i + 1] + 1), Braced(NamesFrom(path, list, i + 2)))
    requires Fill(PiecesFrom(path, list, i + 2, list[i + 1] + 1), Braced(NamesFrom(path, list, i + 2)))
         == path[list[i + 1] + 1..list[|list| - 1] + 1]
    ensures Fill(PiecesFrom(path, list, i, start), Braced(NamesFrom(path, list, i))) == path[start..list[|list| - 1] + 1]
  {
    SliceJoin(path, start, list[i + 1] + 1, list[|list| - 1] + 1);
  }

  /** The last pair: the pieces from it rebuild the template up to its '}'. */
  lemma LastPair(path: string, list: seq<nat>, i: nat, start: nat)
    requires PairsInRange(list, |path|) && GapsInRange(list, |path|)
    requires i % 2 == 0 && i + 2 == |list| && start <= list[i] && list[i + 1] < |path|
    requires Fill(PiecesFrom(path, list, i, start), Braced(NamesFrom(path, list, i)))
         == path[start..list[i + 1] + 1]
            + Fill(PiecesFrom(path, list, i + 2, list[i + 1] + 1), Braced(NamesFrom(path, list, i + 2)))
    ensures Fill(PiecesFrom(path, list, i, start), Braced(NamesFrom(path, list, i))) == path[start..list[i + 1] + 1]
  {
    assert PiecesFrom(path, list, i + 2, list[i + 1] + 1) == [] && NamesFrom(path, list, i + 2) == [];
    assert Fill([], Braced([])) == [];
  }

  /** The pair of `PairedBraces` that starts at an even position. */
  lemma PairAt(path: string, list: seq<nat>, i: nat)
    requires PairedBraces(path, list) && i % 2 == 0 && i < |list|
    ensures i + 1 < |list| && list[i] < list[i + 1] < |path|
    ensures path[list[i]] == '{' && path[list[i + 1]] == '}'
  {
    assert path[list[i]] == Expected(i) && path[list[i + 1]] == Expected(i + 1);
  }

  /** A slice followed by the slice after it is the joined slice. */
  lemma SliceJoin(s: string, a: nat, b: nat, c: nat)
    requires a <= b <= c <= |s|
    ensures s[a..b] + s[b..c] == s[a..c]
  {
  }

  /** Round trip of compilation: writing each parameter name back between braces into
      the compiled pieces gives the normalised template again, except for the literal
      text after the last '}', which `makePatternString` never writes. */
  lemma TemplateRoundTrip(path: string)
    requires Alternating(path) && |BracePositions(path)| % 2 == 0
    ensures var list := BracePositions(path);
      && PairsInRange(list, |path|) && GapsInRange(list, |path|)
      && var ps := MakePieces(path, list);
      && var names := ExtractParam(path, list);
      && HoleCount(ps) == |names|
      && (|list| == 0 ==> Fill(ps, Braced(names)) == path)
      && (|list| > 0 ==> Fill(ps, Braced(names)) + path[list[|list| - 1] + 1..] == path)
  {
    AlternatingPaired(path);
    PairedRoundTrip(path, BracePositions(path));
  }

  lemma PairedRoundTrip(path: string, list: seq<nat>)
    requires PairedBraces(path, list)
    ensures PairsInRange(list, |path|) && GapsInRange(list, |path|)
    ensures HoleCount(MakePieces(path, list)) == |ExtractParam(path, list)|
    ensures |list| == 0 ==> Fill(MakePieces(path, list), Braced(ExtractParam(path, list))) == path
    ensures |list| > 0 ==>
      Fill(MakePieces(path, list), Braced(ExtractParam(path, list))) + path[list[|list| - 1] + 1..] == path
  {
    PairedBracesSliceable(path, list);
    if |list| == 0 {
      assert Fill([Lit(path)], []) == path + Fill([], []);
    } else {
      IncreasingBelowLast(list);
      PiecesFromRoundTrip(path, list, 0, 0);
      var last := list[|list| - 1] + 1;
      assert path == path[0..last] + path[last..];
    }
  }

  /** The literal after the last '}' does not influence the pieces: a template and its
      prefix ending at that '}' compile to the same pattern. */
  lemma TrailingLiteralIgnored(path: string, list: seq<nat>)
    requires PairedBraces(path, list) && |list| > 0
    ensures var cut := list[|list| - 1] + 1;
      && GapsInRange(list, |path|) && GapsInRange(list, cut)
      && MakePieces(path, list) == MakePieces(path[..cut], list)
  {
    var cut := list[|list| - 1] + 1;
    PairedBracesSliceable(path, list);
    assert PairedBraces(path[..cut], list) by {
      IncreasingBelowLast(list);
    }
    PairedBracesSliceable(path[..cut], list);
    PiecesFromPrefix(path, list, 0, 0, cut);
  }

  lemma {:induction false} IncreasingBelowLast(list: seq<nat>)
    requires |list| > 0 && forall j :: 0 < j < |list| ==> list[j - 1] < list[j]
    ensures forall j :: 0 <= j < |list| ==> list[j] <= list[|list| - 1]
    decreases |list|
  {
    if |list| > 1 {
      IncreasingBelowLast(list[..|list| - 1]);
      assert forall j :: 0 <= j < |list| - 1 ==> list[..|list| - 1][j] == list[j];
    }
  }

  lemma {:induction false} PiecesFromPrefix(path: string, list: seq<nat>, i: nat, start: nat, cut: nat)
    requires GapsInRange(list, |path|) && i % 2 == 0 && i <= |list|
    requires cut <= |path| && GapsInRange(list, cut)
    requires i < |list| ==> start <= list[i]
    ensures PiecesFrom(path, list, i, start) == PiecesFrom(path[..cut], list, i, start)
    decreases |list| - i
  {
    if i < |list| {
      assert list[i] <= cut;
      assert path[start..list[i]] == path[..cut][start..list[i]];
      PiecesFromPrefix(path, list, i + 2, list[i + 1] + 1, cut);
    }
  }

  /** When every '}' is followed by '/' (or ends the template), each placeholder of the
      compiled pieces is followed by the end or by literal text starting with '/'. */
  lemma CompiledPiecesSeparated(path: string)
    requires Alternating(path) && |BracePositions(path)| % 2 == 0
    requires forall i :: 0 <= i < |path| - 1 && path[i] == '}' ==> path[i + 1] == '/'
    ensures GapsInRange(BracePositions(path), |path|)
    ensures Separated(MakePieces(path, BracePositions(path)))
  {
    var list := BracePositions(path);
    AlternatingPaired(path);
    PairedBracesSliceable(path, list);
    if |list| > 0 {
      PiecesFromSeparated(path, list, 0, 0);
    }
  }

  lemma {:induction false} PiecesFromSeparated(path: string, list: seq<nat>, i: nat, start: nat)
    requires PairedBraces(path, list) && GapsInRange(list, |path|)
    requires forall i :: 0 <= i < |path| - 1 && path[i] == '}' ==> path[i + 1] == '/'
    requires i % 2 == 0 && i <= |list|
    requires i < |list| ==> start <= list[i]
    ensures Separated(PiecesFrom(path, list, i, start))
    decreases |list| - i
  {
    if i < |list| {
      assert i + 1 < |list|;
      var x := path[start..list[i]];
      var rest := PiecesFrom(path, list, i + 2, list[i + 1] + 1);
      var ps := [Lit(x), Hole] + rest;
      assert PiecesFrom(path, list, i, start) == ps;
      PiecesFromSeparated(path, list, i + 2, list[i + 1] + 1);
      assert ps[1..] == [Hole] + rest && ps[1..][1..] == rest;
      if i + 2 < |list| {
        var c := list[i + 1];
        assert path[c] == Expected(i + 1) && path[list[i + 2]] == Expected(i + 2);
        assert c < list[i + 2];
        assert path[c + 1] == '/';
        assert rest[0] == Lit(path[c + 1..list[i + 2]]);
      }
    }
  }
}
