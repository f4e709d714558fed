/** Removing query parameters from a URL by string surgery, and what that does to the parameter list. */
module UrlParameters {
  import opened Domain

  // ---- Searching in strings --------------------------------------------------------------

  predicate Matches(s: string, pat: string, i: nat) {
    i + |pat| <= |s| && s[i..i + |pat|] == pat
  }

  /** The first match at or after `from`, or -1. */
  function IndexOf(s: string, pat: string, from: nat): (i: int)
    ensures i == -1 || from <= i <= |s| - |pat|
    decreases |s| - from
  {
    if from + |pat| > |s| then -1
    else if Matches(s, pat, from) then from
    else IndexOf(s, pat, from + 1)
  }

  lemma {:induction false} IndexOfMatches(s: string, pat: string, from: nat)
    ensures IndexOf(s, pat, from) != -1 ==> Matches(s, pat, IndexOf(s, pat, from))
    decreases |s| - from
  {
    if from + |pat| <= |s| && !Matches(s, pat, from) {
      IndexOfMatches(s, pat, from + 1);
    }
  }

  /** No match is missed. */
  lemma {:induction false} IndexOfIsFirst(s: string, pat: string, from: nat, j: nat)
    requires from <= j && Matches(s, pat, j)
    ensures 0 <= IndexOf(s, pat, from) <= j
    decreases |s| - from
  {
    if !Matches(s, pat, from) {
      IndexOfIsFirst(s, pat, from + 1, j);
    }
  }

  // ---- One pass ----------------------------------------------------------------------------

  /** Where the parameter `name` starts: after its question mark, else after its ampersand, else -1. */
  function StartOf(url: string, name: string): (i: int)
    ensures i == -1 || (0 < i && i + |name| + 1 <= |url|)
  {
    var q := IndexOf(url, "?" + name + "=", 0);
    var a := IndexOf(url, "&" + name + "=", 0);
    if q > -1 then q + 1 else if a > -1 then a + 1 else -1
  }

  /** One past the ampersand that ends the parameter, or the end of the string. */
  function EndOf(url: string, start: nat): (e: nat)
    requires start < |url|
    ensures start < e <= |url|
  {
    var temp := IndexOf(url, "&", start);
    if temp > -1 then temp + 1 else |url|
  }

  function Cut(url: string, name: string): (r: string)
    ensures StartOf(url, name) == -1 ==> r == url
    ensures StartOf(url, name) != -1 ==> |r| < |url|
  {
    var start := StartOf(url, name);
    if start == -1 then url else url[..start] + url[EndOf(url, start)..]
  }

  /** Cuts the first occurrence of each name in turn. */
  function CutAll(url: string, names: seq<string>): (r: string)
    ensures |r| <= |url|
    decreases |names|
  {
    if names == [] then url else CutAll(Cut(url, names[0]), names[1..])
  }

  /** Drops one dangling separator. */
  function Trim(url: string): (r: string)
    ensures |r| <= |url|
  {
    if url != [] && url[|url| - 1] in {'?', '&'} then url[..|url| - 1] else url
  }

  predicate CutsNothing(url: string, names: seq<string>)
    decreases |names|
  {
    names == [] || (StartOf(url, names[0]) == -1 && CutsNothing(url, names[1..]))
  }

  lemma {:induction false} CutsNothingIff(url: string, names: seq<string>)
    ensures CutsNothing(url, names) <==> forall n :: n in names ==> StartOf(url, n) == -1
    decreases |names|
  {
    if names != [] {
      CutsNothingIff(url, names[1..]);
      assert names == [names[0]] + names[1..];
    }
  }

  lemma {:induction false} CutAllShrinks(url: string, names: seq<string>)
    ensures CutsNothing(url, names) ==> CutAll(url, names) == url
    ensures !CutsNothing(url, names) ==> |CutAll(url, names)| < |url|
    decreases |names|
  {
    if names != [] {
      CutAllShrinks(Cut(url, names[0]), names[1..]);
      if StartOf(url, names[0]) == -1 {
        CutAllShrinks(url, names[1..]);
      }
    }
  }

  /** Passes are repeated until one of them finds nothing. */
  function Cleaned(url: string, names: seq<string>): (r: string)
    ensures |r| <= |url|
    decreases |url|
  {
    if IndexOf(url, "?", 0) == -1 || CutsNothing(url, names) then url
    else
      CutAllShrinks(url, names);
      Cleaned(Trim(CutAll(url, names)), names)
  }

  /** What a pass has done after `i` names. */
  ghost predicate Passing(url: string, names: seq<string>, i: nat, cleaned: string, contained: bool)
    requires i <= |names|
  {
    && CutAll(url, names) == CutAll(cleaned, names[i..])
    && (!contained ==> cleaned == url)
    && (CutsNothing(url, names) <==> !contained && CutsNothing(cleaned, names[i..]))
  }

  lemma PassSteps(url: string, names: seq<string>, i: nat, cleaned: string, contained: bool)
    requires i < |names| && Passing(url, names, i, cleaned, contained)
    ensures Passing(url, names, i + 1, Cut(cleaned, names[i]), contained || StartOf(cleaned, names[i]) != -1)
  {
    assert names[i..][1..] == names[i + 1..];
  }

  lemma PassEnds(url: string, names: seq<string>, cleaned: string, contained: bool)
    requires Passing(url, names, |names|, cleaned, contained)
    ensures cleaned == CutAll(url, names) && (contained <==> !CutsNothing(url, names))
  {
  }

  /** One pass over the names, and whether it found any. */
  method RemoveOnce(url: string, paramsToBeRemoved: seq<string>)
    returns (cleanedUrl: string, containsOneOfTheUnwantedParams: bool)
    ensures cleanedUrl == CutAll(url, paramsToBeRemoved)
    ensures containsOneOfTheUnwantedParams <==> !CutsNothing(url, paramsToBeRemoved)
  {
    cleanedUrl, containsOneOfTheUnwantedParams := url, false;
    for i := 0 to |paramsToBeRemoved|
      invariant Passing(url, paramsToBeRemoved, i, cleanedUrl, containsOneOfTheUnwantedParams)
    {
      var paramToBeErased := paramsToBeRemoved[i];
      PassSteps(url, paramsToBeRemoved, i, cleanedUrl, containsOneOfTheUnwantedParams);
      ghost var cut := Cut(cleanedUrl, paramToBeErased);
      var startPosition := -1;
      if IndexOf(cleanedUrl, "?" + paramToBeErased + "=", 0) > -1 {
        startPosition := IndexOf(cleanedUrl, "?" + paramToBeErased + "=", 0) + 1;
      } else if IndexOf(cleanedUrl, "&" + paramToBeErased + "=", 0) > -1 {
        startPosition := IndexOf(cleanedUrl, "&" + paramToBeErased + "=", 0) + 1;
      }
      assert startPosition == StartOf(cleanedUrl, paramToBeErased);
      if startPosition > -1 {
        var temp := IndexOf(cleanedUrl, "&", startPosition);
        var endPosition := if temp > -1 then temp + 1 else |cleanedUrl|;
        assert endPosition == EndOf(cleanedUrl, startPosition);
        cleanedUrl := cleanedUrl[..startPosition] + cleanedUrl[endPosition..];
        containsOneOfTheUnwantedParams := true;
      }
      assert cleanedUrl == cut;
    }
    PassEnds(url, paramsToBeRemoved, cleanedUrl, containsOneOfTheUnwantedParams);
  }

  /** The program: a pass, the trimming, and another call unless the pass found nothing. */
  method RemoveHttpGetParameters(casUrl: Option<string>, paramsToBeRemoved: seq<string>) returns (r: Option<string>)
    ensures r == match casUrl case None => None case Some(url) => Some(Cleaned(url, paramsToBeRemoved))
    decreases match casUrl case None => 0 case Some(url) => |url|
  {
    if casUrl.None? {
      return casUrl;
    }
    var url := casUrl.value;
    if IndexOf(url, "?", 0) == -1 {
      return casUrl;
    }
    var cleanedUrl, containsOneOfTheUnwantedParams := RemoveOnce(url, paramsToBeRemoved);
    CutAllShrinks(url, paramsToBeRemoved);
    if |cleanedUrl| > 0 && (cleanedUrl[|cleanedUrl| - 1] == '?' || cleanedUrl[|cleanedUrl| - 1] == '&') {
      cleanedUrl := cleanedUrl[..|cleanedUrl| - 1];
    }
    if !containsOneOfTheUnwantedParams {
      return casUrl;
    }
    r := RemoveHttpGetParameters(Some(cleanedUrl), paramsToBeRemoved);
  }

  const RESET_NAMES: seq<string> := ["lt", "error_message", "get-lt"]

  method ResetUrl(casUrl: Option<string>) returns (r: Option<string>)
    ensures r == match casUrl case None => None case Some(url) => Some(Cleaned(url, ["lt", "error_message", "get-lt"]))
  {
    r := RemoveHttpGetParameters(casUrl, RESET_NAMES);
  }

  // ---- Any URL -----------------------------------------------------------------------------

  /** Whatever the string, the result has no query any more or no unwanted parameter in it. */
  lemma {:induction false} NothingUnwantedLeft(url: string, names: seq<string>)
    ensures IndexOf(Cleaned(url, names), "?", 0) == -1 || CutsNothing(Cleaned(url, names), names)
    decreases |url|
  {
    if IndexOf(url, "?", 0) != -1 && !CutsNothing(url, names) {
      CutAllShrinks(url, names);
      NothingUnwantedLeft(Trim(CutAll(url, names)), names);
    }
  }

  lemma {:induction false} CleaningTwiceIsCleaningOnce(url: string, names: seq<string>)
    ensures Cleaned(Cleaned(url, names), names) == Cleaned(url, names)
  {
    NothingUnwantedLeft(url, names);
  }

  /** A string stays as it is exactly if it has no question mark, or none of the names is found in it. */
  lemma UntouchedIff(url: string, names: seq<string>)
    ensures Cleaned(url, names) == url <==>
      || '?' !in url
      || forall n :: n in names ==> IndexOf(url, "?" + n + "=", 0) == -1 && IndexOf(url, "&" + n + "=", 0) == -1
  {
    CutsNothingIff(url, names);
    CutAllShrinks(url, names);
    if '?' in url {
      var i :| 0 <= i < |url| && url[i] == '?';
      assert url[i..i + 1] == "?";
      IndexOfIsFirst(url, "?", 0, i);
    } else {
      Skip(url, "?", 0, |url|);
    }
  }

  // ---- Well-formed URLs ----------------------------------------------------------------------

  datatype Param = Param(key: string, value: string)

  predicate Plain(s: string) {
    '?' !in s && '&' !in s
  }

  predicate PlainName(s: string) {
    Plain(s) && '=' !in s
  }

  /** A value may contain question marks; what it may not contain separates parameters. */
  predicate WellFormed(ps: seq<Param>) {
    forall p :: p in ps ==> PlainName(p.key) && '&' !in p.value
  }

  /** Nothing in the value looks like the start of a query with that name. */
  predicate Unhit(value: string, name: string) {
    IndexOf(value, "?" + name + "=", 0) == -1
  }

  ghost predicate NoHit(ps: seq<Param>, name: string) {
    forall p :: p in ps ==> Unhit(p.value, name)
  }

  ghost predicate NoHits(ps: seq<Param>, names: seq<string>) {
    forall n :: n in names ==> NoHit(ps, n)
  }

  predicate Ended(value: string) {
    value == "" || value[|value| - 1] != '?'
  }

  /** No wanted value ends in a question mark. */
  ghost predicate WantedEnded(ps: seq<Param>, names: seq<string>) {
    forall p :: p in ps && p.key !in names ==> Ended(p.value)
  }

  function Show(p: Param): string {
    p.key + "=" + p.value
  }

  /** The parameters, separated by ampersands; an `open` query ends with one more. */
  function Query(ps: seq<Param>, open: bool): string {
    if ps == [] then ""
    else Show(ps[0]) + (if |ps| > 1 || open then "&" else "") + Query(ps[1..], open)
  }

  function Url(base: string, ps: seq<Param>, open: bool): string {
    base + "?" + Query(ps, open)
  }

  function Render(base: string, ps: seq<Param>): string {
    if ps == [] then base else Url(base, ps, false)
  }

  function Wanted(ps: seq<Param>, names: seq<string>): seq<Param> {
    if ps == [] then []
    else (if ps[0].key in names then [] else [ps[0]]) + Wanted(ps[1..], names)
  }

  /** The index of the first parameter with that name, or the length. */
  function First(ps: seq<Param>, name: string): (i: nat)
    ensures i <= |ps| && (i < |ps| ==> ps[i].key == name)
    ensures forall j :: 0 <= j < i ==> ps[j].key != name
  {
    if ps == [] || ps[0].key == name then 0 else 1 + First(ps[1..], name)
  }

  function WithoutFirst(ps: seq<Param>, name: string): seq<Param> {
    var i := First(ps, name);
    if i == |ps| then ps else ps[..i] + ps[i + 1..]
  }

  // ---- Searching in a well-formed URL --------------------------------------------------------

  /** No match can start at a character other than the first of the pattern. */
  lemma {:induction false} Skip(s: string, pat: string, from: nat, to: nat)
    requires pat != [] && from <= to <= |s|
    requires forall j :: from <= j < to ==> s[j] != pat[0]
    ensures IndexOf(s, pat, from) == IndexOf(s, pat, to)
    decreases |s| - from
  {
    if from < to {
      Skip(s, pat, from + 1, to);
    }
  }

  lemma {:induction false} Shift(a: string, b: string, pat: string, k: nat)
    requires k <= |b|
    ensures IndexOf(a + b, pat, |a| + k) == var i := IndexOf(b, pat, k); if i == -1 then -1 else |a| + i
    decreases |b| - k
  {
    if k + |pat| <= |b| && !Matches(b, pat, k) && k < |b| {
      Shift(a, b, pat, k + 1);
    }
  }

  /** Searching past a prefix that does not contain the first character of the pattern. */
  lemma SkipPrefix(a: string, b: string, pat: string)
    requires pat != [] && pat[0] !in a
    ensures IndexOf(a + b, pat, 0) == var i := IndexOf(b, pat, 0); if i == -1 then -1 else |a| + i
  {
    Skip(a + b, pat, 0, |a|);
    Shift(a, b, pat, 0);
  }

  lemma MatchReaches(s: string, pat: string, i: nat, j: nat)
    requires Matches(s, pat, i) && i <= j < i + |pat|
    ensures s[j] in pat
  {
    assert s[i..i + |pat|][j - i] == s[j];
  }

  /** A match cannot reach over a character that the pattern does not have. */
  lemma MatchStaysInside(v: string, rest: string, pat: string, i: nat)
    requires i < |v| && Matches(v + rest, pat, i) && (rest != [] ==> rest[0] !in pat)
    ensures Matches(v, pat, i)
  {
    if i + |pat| > |v| {
      MatchReaches(v + rest, pat, i, |v|);
    } else {
      assert (v + rest)[i..i + |pat|] == v[i..i + |pat|];
    }
  }

  lemma {:induction false} SkipValue(v: string, rest: string, pat: string, i: nat)
    requires pat != [] && i <= |v| && (rest != [] ==> rest[0] !in pat)
    requires IndexOf(v, pat, 0) == -1
    ensures IndexOf(v + rest, pat, i) == IndexOf(v + rest, pat, |v|)
    decreases |v| - i
  {
    if i < |v| {
      SkipValue(v, rest, pat, i + 1);
      if Matches(v + rest, pat, i) {
        MatchStaysInside(v, rest, pat, i);
        IndexOfIsFirst(v, pat, 0, i);
      }
    }
  }

  /** Searching past a value that the pattern does not occur in. */
  lemma PastValue(v: string, rest: string, pat: string)
    requires pat != [] && (rest != [] ==> rest[0] !in pat) && IndexOf(v, pat, 0) == -1
    ensures IndexOf(v + rest, pat, 0) == var i := IndexOf(rest, pat, 0); if i == -1 then -1 else |v| + i
  {
    SkipValue(v, rest, pat, 0);
    Shift(v, rest, pat, 0);
  }

  /** Where no value is hit, the query has no `?name=` in it. */
  lemma {:induction false} QueryHasNoQuestionMark(ps: seq<Param>, open: bool, name: string)
    requires WellFormed(ps) && PlainName(name) && NoHit(ps, name)
    ensures IndexOf(Query(ps, open), "?" + name + "=", 0) == -1
    decreases |ps|
  {
    var pat := "?" + name + "=";
    if ps == [] {
      Skip("", pat, 0, |""|);
    } else {
      var p, after := ps[0], Query(ps[1..], open);
      var tail := if |ps| > 1 || open then "&" + after else "";
      QueryHasNoQuestionMark(ps[1..], open, name);
      assert Unhit(p.value, name);
      assert Query(ps, open) == (p.key + "=") + (p.value + tail);
      SkipPrefix(p.key + "=", p.value + tail, pat);
      PastValue(p.value, tail, pat);
      if tail != "" {
        SkipPrefix("&", after, pat);
      } else {
        Skip("", pat, 0, |""|);
      }
    }
  }

  lemma {:induction false} QuerySplit(a: seq<Param>, b: seq<Param>, open: bool)
    requires b != [] || open
    ensures Query(a + b, open) == Query(a, true) + Query(b, open)
    decreases |a|
  {
    if a == [] {
      assert a + b == b;
    } else {
      assert (a + b)[1..] == a[1..] + b;
      QuerySplit(a[1..], b, open);
    }
  }

  /** A query starts with `name=` exactly when its first parameter has that name. */
  lemma QueryStarts(ps: seq<Param>, open: bool, name: string)
    requires WellFormed(ps) && PlainName(name)
    ensures Matches(Query(ps, open), name + "=", 0) <==> ps != [] && ps[0].key == name
  {
    if ps != [] {
      var rest := ps[0].value + (if |ps| > 1 || open then "&" else "") + Query(ps[1..], open);
      assert Query(ps, open) == ps[0].key + ("=" + rest);
      KeyThenEquals(ps[0].key, rest, name);
    }
  }

  /** Names without an equals sign are compared by comparing up to the equals sign. */
  lemma {:induction false} KeyThenEquals(key: string, rest: string, name: string)
    requires '=' !in key && '=' !in name
    ensures Matches(key + ("=" + rest), name + "=", 0) <==> key == name
    decreases |key|
  {
    var s, pat := key + ("=" + rest), name + "=";
    if key != [] && name != [] {
      var tail, patTail := key[1..] + ("=" + rest), name[1..] + "=";
      KeyThenEquals(key[1..], rest, name[1..]);
      assert s == [key[0]] + tail && pat == [name[0]] + patTail;
      if key[0] == name[0] {
        MatchesCons(key[0], tail, patTail);
        assert key == [key[0]] + key[1..] && name == [name[0]] + name[1..];
      } else {
        assert s[0] != pat[0];
      }
    } else if key == [] && name == [] {
      assert s[..1] == pat;
    } else {
      assert s[0] != pat[0];
    }
  }

  lemma MatchesCons(c: char, s: string, pat: string)
    ensures Matches([c] + s, [c] + pat, 0) == Matches(s, pat, 0)
  {
    if |pat| <= |s| {
      assert ([c] + s)[..1 + |pat|] == [c] + s[..|pat|];
      assert ([c] + s[..|pat|])[1..] == s[..|pat|] && ([c] + pat)[1..] == pat;
    }
  }

  /** After the last parameter there is no `&name=`. */
  lemma AmpersandLast(p: Param, open: bool, name: string)
    requires PlainName(p.key) && '&' !in p.value
    ensures IndexOf(Query([p], open), "&" + name + "=", 0) == -1
  {
    var pat, tail := "&" + name + "=", if open then "&" else "";
    assert Query([p], open) == Show(p) + tail;
    SkipPrefix(Show(p), tail, pat);
  }

  /** Just after an ampersand, or further on in the rest of the query. */
  lemma {:induction false} AmpersandNext(rest: seq<Param>, open: bool, name: string)
    requires WellFormed(rest) && PlainName(name)
    ensures var pat := "&" + name + "=";
      var i := IndexOf(Query(rest, open), pat, 0);
      IndexOf("&" + Query(rest, open), pat, 0) ==
        if rest != [] && rest[0].key == name then 0 else if i == -1 then -1 else 1 + i
  {
    var pat, q := "&" + name + "=", Query(rest, open);
    assert pat == ['&'] + (name + "=");
    MatchesCons('&', q, name + "=");
    QueryStarts(rest, open, name);
    Shift("&", q, pat, 0);
  }

  /** Where `&name=` is found in a query, by its first parameter and the rest. */
  lemma AmpersandStep(ps: seq<Param>, open: bool, name: string)
    requires WellFormed(ps) && PlainName(name) && |ps| > 1
    ensures var pat, rest := "&" + name + "=", ps[1..];
      var i := IndexOf(Query(rest, open), pat, 0);
      IndexOf(Query(ps, open), pat, 0) ==
        if rest[0].key == name then |Show(ps[0])| else if i == -1 then -1 else |Show(ps[0])| + 1 + i
  {
    var p, rest := Show(ps[0]), ps[1..];
    var tail := "&" + Query(rest, open);
    assert Query(ps, open) == p + tail;
    SkipPrefix(p, tail, "&" + name + "=");
    AmpersandNext(rest, open, name);
  }

  lemma QueryTake(ps: seq<Param>, i: nat)
    requires 1 <= i <= |ps|
    ensures |Query(ps[..i], true)| == |Show(ps[0])| + 1 + |Query(ps[1..][..i - 1], true)|
  {
    assert ps[..i][1..] == ps[1..][..i - 1];
  }

  /** In a query, `&name=` is found just before the first parameter, after the first one, with that name. */
  lemma {:induction false} AmpersandIndex(ps: seq<Param>, open: bool, name: string)
    requires WellFormed(ps) && PlainName(name) && ps != []
    ensures var i := First(ps[1..], name) + 1;
      IndexOf(Query(ps, open), "&" + name + "=", 0) == if i == |ps| then -1 else |Query(ps[..i], true)| - 1
    decreases |ps|
  {
    var rest := ps[1..];
    if rest == [] {
      assert ps == [ps[0]];
      AmpersandLast(ps[0], open, name);
    } else {
      AmpersandStep(ps, open, name);
      QueryTake(ps, First(rest, name) + 1);
      if rest[0].key != name {
        AmpersandIndex(rest, open, name);
      }
    }
  }

  // ---- Cutting a well-formed URL ---------------------------------------------------------------

  lemma QuestionMarkIndex(base: string, ps: seq<Param>, open: bool, name: string)
    requires Plain(base) && WellFormed(ps) && PlainName(name) && NoHit(ps, name)
    ensures IndexOf(Url(base, ps, open), "?" + name + "=", 0) == if ps != [] && ps[0].key == name then |base| else -1
  {
    var pat, q := "?" + name + "=", Query(ps, open);
    var tail := "?" + q;
    assert Url(base, ps, open) == base + tail;
    SkipPrefix(base, tail, pat);
    assert pat == ['?'] + (name + "=");
    MatchesCons('?', q, name + "=");
    QueryStarts(ps, open, name);
    QueryHasNoQuestionMark(ps, open, name);
    Shift("?", q, pat, 0);
  }

  lemma AmpersandInUrl(base: string, ps: seq<Param>, open: bool, name: string)
    requires Plain(base)
    ensures var pat := "&" + name + "=";
      var i := IndexOf(Query(ps, open), pat, 0);
      IndexOf(Url(base, ps, open), pat, 0) == if i == -1 then -1 else |base| + 1 + i
  {
    assert Url(base, ps, open) == (base + "?") + Query(ps, open);
    SkipPrefix(base + "?", Query(ps, open), "&" + name + "=");
  }

  /** The program finds the first parameter with the name, wherever it stands. */
  lemma StartOfFirst(base: string, ps: seq<Param>, open: bool, name: string)
    requires Plain(base) && WellFormed(ps) && PlainName(name) && NoHit(ps, name)
    ensures var i := First(ps, name);
      StartOf(Url(base, ps, open), name) == if i == |ps| then -1 else |base| + 1 + |Query(ps[..i], true)|
  {
    QuestionMarkIndex(base, ps, open, name);
    AmpersandInUrl(base, ps, open, name);
    if ps == [] {
      Skip("", "&" + name + "=", 0, |""|);
    } else if ps[0].key != name {
      AmpersandIndex(ps, open, name);
    }
  }

  /** The first parameter of a query ends where the rest begins. */
  lemma EndOfFirst(ps: seq<Param>, open: bool)
    requires WellFormed(ps) && ps != []
    ensures var q := Query(ps, open); q != "" && q[EndOf(q, 0)..] == Query(ps[1..], open)
  {
    var p, rest, q := Show(ps[0]), Query(ps[1..], open), Query(ps, open);
    if |ps| > 1 || open {
      var tail := "&" + rest;
      assert q == p + tail;
      SkipPrefix(p, tail, "&");
      assert Matches(tail, "&", 0);
      assert q[|p| + 1..] == tail[1..] == rest;
    } else {
      assert ps[1..] == [] && rest == "";
      assert q == p + "" + "" == p;
      Skip(q, "&", 0, |q|);
    }
  }

  /** The same, in a longer string. */
  lemma EndOfParam(head: string, q: string)
    requires q != ""
    ensures (head + q)[EndOf(head + q, |head|)..] == q[EndOf(q, 0)..]
  {
    Shift(head, q, "&", 0);
    assert EndOf(head + q, |head|) == |head| + EndOf(q, 0);
  }

  lemma CutBehind(head: string, q: string)
    requires q != ""
    ensures (head + q)[..|head|] + (head + q)[EndOf(head + q, |head|)..] == head + q[EndOf(q, 0)..]
  {
    EndOfParam(head, q);
    assert (head + q)[..|head|] == head;
  }

  lemma SplitAt(ps: seq<Param>, i: nat, open: bool)
    requires i < |ps|
    ensures Query(ps, open) == Query(ps[..i], true) + Query(ps[i..], open)
    ensures Query(ps[..i] + ps[i + 1..], open || i + 1 == |ps|)
      == Query(ps[..i], true) + Query(ps[i + 1..], open)
  {
    assert ps == ps[..i] + ps[i..];
    QuerySplit(ps[..i], ps[i..], open);
    QuerySplit(ps[..i], ps[i + 1..], open || i + 1 == |ps|);
  }

  lemma HeadOfUrl(base: string, ps: seq<Param>, i: nat, open: bool)
    requires i < |ps|
    ensures var head := base + "?" + Query(ps[..i], true);
      && Url(base, ps, open) == head + Query(ps[i..], open)
      && Url(base, ps[..i] + ps[i + 1..], open || i + 1 == |ps|) == head + Query(ps[i + 1..], open)
  {
    SplitAt(ps, i, open);
    Associate(base + "?", Query(ps[..i], true), Query(ps[i..], open));
    Associate(base + "?", Query(ps[..i], true), Query(ps[i + 1..], open));
  }

  lemma Associate(a: string, b: string, c: string)
    ensures a + b + c == a + (b + c)
  {
  }

  /** What remains of the text when the i-th parameter is cut. */
  lemma CutAt(base: string, ps: seq<Param>, i: nat, open: bool)
    requires WellFormed(ps) && i < |ps|
    ensures var url, start := Url(base, ps, open), |base| + 1 + |Query(ps[..i], true)|;
      && start < |url|
      && url[..start] + url[EndOf(url, start)..] == Url(base, ps[..i] + ps[i + 1..], open || i + 1 == |ps|)
  {
    var head, q := base + "?" + Query(ps[..i], true), Query(ps[i..], open);
    assert |head| == |base| + 1 + |Query(ps[..i], true)|;
    HeadOfUrl(base, ps, i, open);
    EndOfFirst(ps[i..], open);
    assert ps[i..][1..] == ps[i + 1..];
    CutBehind(head, q);
  }

  lemma CutWhereFound(base: string, ps: seq<Param>, i: nat, open: bool, name: string)
    requires WellFormed(ps) && i < |ps|
    requires StartOf(Url(base, ps, open), name) == |base| + 1 + |Query(ps[..i], true)|
    ensures Cut(Url(base, ps, open), name) == Url(base, ps[..i] + ps[i + 1..], open || i + 1 == |ps|)
  {
    CutAt(base, ps, i, open);
  }

  /** Cutting a name out of the text is removing its first parameter from the list. */
  lemma {:induction false} CutIsWithoutFirst(base: string, ps: seq<Param>, open: bool, name: string) returns (open': bool)
    requires Plain(base) && WellFormed(ps) && PlainName(name) && NoHit(ps, name)
    ensures Cut(Url(base, ps, open), name) == Url(base, WithoutFirst(ps, name), open')
    ensures open' == (open || First(ps, name) + 1 == |ps|)
  {
    var i := First(ps, name);
    StartOfFirst(base, ps, open, name);
    open' := open || i + 1 == |ps|;
    if i < |ps| {
      CutWhereFound(base, ps, i, open, name);
    }
  }

  function WithoutEach(ps: seq<Param>, names: seq<string>): seq<Param>
    decreases |names|
  {
    if names == [] then ps else WithoutEach(WithoutFirst(ps, names[0]), names[1..])
  }

  ghost predicate PlainNames(names: seq<string>) {
    forall n :: n in names ==> PlainName(n)
  }

  lemma WithoutFirstIsPart(ps: seq<Param>, name: string)
    ensures forall p :: p in WithoutFirst(ps, name) ==> p in ps
    ensures forall n :: NoHit(ps, n) ==> NoHit(WithoutFirst(ps, name), n)
    ensures WellFormed(ps) ==> WellFormed(WithoutFirst(ps, name))
  {
  }

  /** One pass over the text is one pass over the list; the query is left open if its last parameter goes. */
  lemma {:induction false} CutAllIsWithoutEach(base: string, ps: seq<Param>, open: bool, names: seq<string>)
    returns (open': bool)
    requires Plain(base) && WellFormed(ps) && PlainNames(names) && NoHits(ps, names)
    ensures CutAll(Url(base, ps, open), names) == Url(base, WithoutEach(ps, names), open')
    ensures open ==> open'
    ensures ps != [] && ps[|ps| - 1].key !in names ==> open' == open
    ensures ps != [] && !open' ==> var rest := WithoutEach(ps, names); rest != [] && rest[|rest| - 1] == ps[|ps| - 1]
    decreases |names|
  {
    open' := open;
    if names != [] {
      WithoutFirstIsPart(ps, names[0]);
      if ps != [] {
        WithoutFirstAtEnd(ps, names[0]);
      }
      open' := CutIsWithoutFirst(base, ps, open, names[0]);
      open' := CutAllIsWithoutEach(base, WithoutFirst(ps, names[0]), open', names[1..]);
    }
  }

  lemma WithoutFirstAtEnd(ps: seq<Param>, name: string)
    requires ps != []
    ensures var rest := WithoutFirst(ps, name);
      First(ps, name) + 1 != |ps| ==> rest != [] && rest[|rest| - 1] == ps[|ps| - 1]
  {
  }

  /** A pass that cuts nothing finds no parameter with one of the names. */
  lemma {:induction false} NothingToCut(base: string, ps: seq<Param>, open: bool, names: seq<string>)
    requires Plain(base) && WellFormed(ps) && PlainNames(names) && NoHits(ps, names)
    requires CutsNothing(Url(base, ps, open), names)
    ensures forall p :: p in ps ==> p.key !in names
    decreases |names|
  {
    if names != [] {
      StartOfFirst(base, ps, open, names[0]);
      NothingToCut(base, ps, open, names[1..]);
      assert names == [names[0]] + names[1..];
    }
  }

  /** Removing an unwanted parameter changes nothing for the filter. */
  lemma WithoutFirstIsWanted(ps: seq<Param>, name: string, all: seq<string>)
    requires name in all
    ensures Wanted(WithoutFirst(ps, name), all) == Wanted(ps, all)
  {
    var i := First(ps, name);
    if i < |ps| {
      assert ps == ps[..i] + ps[i..];
      assert ps[i..][1..] == ps[i + 1..];
      WantedConcat(ps[..i], ps[i..], all);
      WantedConcat(ps[..i], ps[i + 1..], all);
    }
  }

  lemma {:induction false} WithoutEachIsWanted(ps: seq<Param>, names: seq<string>, all: seq<string>)
    requires WellFormed(ps) && forall n :: n in names ==> n in all
    ensures WellFormed(WithoutEach(ps, names)) && Wanted(WithoutEach(ps, names), all) == Wanted(ps, all)
    ensures forall p :: p in WithoutEach(ps, names) ==> p in ps
    ensures forall n :: NoHit(ps, n) ==> NoHit(WithoutEach(ps, names), n)
    decreases |names|
  {
    if names != [] {
      WithoutFirstIsPart(ps, names[0]);
      WithoutFirstIsWanted(ps, names[0], all);
      WithoutEachIsWanted(WithoutFirst(ps, names[0]), names[1..], all);
    }
  }

  lemma {:induction false} WantedConcat(a: seq<Param>, b: seq<Param>, names: seq<string>)
    ensures Wanted(a + b, names) == Wanted(a, names) + Wanted(b, names)
    decreases |a|
  {
    if a == [] {
      assert a + b == b;
    } else {
      assert (a + b)[1..] == a[1..] + b;
      WantedConcat(a[1..], b, names);
    }
  }

  lemma {:induction false} AllWanted(ps: seq<Param>, names: seq<string>)
    requires forall p :: p in ps ==> p.key !in names
    ensures Wanted(ps, names) == ps
    decreases |ps|
  {
    if ps != [] {
      AllWanted(ps[1..], names);
    }
  }

  lemma ShowEnds(p: Param)
    requires '&' !in p.value && Ended(p.value)
    ensures Show(p) != "" && Show(p)[|Show(p)| - 1] !in {'?', '&'}
  {
    var s, v := Show(p), p.value;
    if v == "" {
      assert s[|s| - 1] == '=';
    } else {
      assert s[|s| - 1] == v[|v| - 1] && v[|v| - 1] in v;
    }
  }

  /** A query is that of all but the last parameter, left open, and the text of the last. */
  lemma LastOfQuery(init: seq<Param>, p: Param)
    ensures Query(init + [p], false) == Query(init, true) + Show(p)
    ensures Query(init + [p], true) == Query(init + [p], false) + "&"
  {
    QuerySplit(init, [p], false);
    QuerySplit(init, [p], true);
    Associate(Query(init, true), Show(p), "&");
  }

  /** One question mark less at the end of the last value, if there is one. */
  function Shorten(ps: seq<Param>): seq<Param> {
    var n := |ps| - 1;
    if ps == [] || Ended(ps[n].value) then ps
    else ps[..n] + [Param(ps[n].key, ps[n].value[..|ps[n].value| - 1])]
  }

  lemma ShortenIs(init: seq<Param>, p: Param)
    requires !Ended(p.value)
    ensures Shorten(init + [p]) == init + [Param(p.key, p.value[..|p.value| - 1])]
  {
    assert (init + [p])[..|init|] == init;
  }

  lemma ShortenedQuery(init: seq<Param>, p: Param)
    requires !Ended(p.value)
    ensures Query(init + [p], false) == Query(Shorten(init + [p]), false) + "?"
  {
    var short := Param(p.key, p.value[..|p.value| - 1]);
    ShortenIs(init, p);
    LastOfQuery(init, p);
    LastOfQuery(init, short);
    Associate(Query(init, true), Show(short), "?");
  }

  /** Trimming closes an open query, drops the question mark of an empty one, or shortens the last value. */
  lemma TrimCloses(base: string, ps: seq<Param>, open: bool)
    requires Plain(base) && WellFormed(ps)
    ensures Trim(Url(base, ps, open)) == Render(base, if open then ps else Shorten(ps))
  {
    var url, closed := Url(base, ps, open), Url(base, ps, false);
    if ps == [] {
      assert url == base + "?" && url[..|url| - 1] == base;
    } else if open {
      assert ps == ps[..|ps| - 1] + [ps[|ps| - 1]];
      LastOfQuery(ps[..|ps| - 1], ps[|ps| - 1]);
      assert url == closed + "&" && url[..|url| - 1] == closed;
    } else {
      TrimClosed(base, ps);
    }
  }

  lemma TrimClosed(base: string, ps: seq<Param>)
    requires WellFormed(ps) && ps != []
    ensures Trim(Url(base, ps, false)) == Url(base, Shorten(ps), false)
  {
    var init, p := ps[..|ps| - 1], ps[|ps| - 1];
    assert ps == init + [p];
    if Ended(p.value) {
      EndedStays(base, init, p);
    } else {
      ShortenedQuery(init, p);
      Associate(base + "?", Query(Shorten(ps), false), "?");
    }
  }

  lemma EndedStays(base: string, init: seq<Param>, p: Param)
    requires '&' !in p.value && Ended(p.value)
    ensures Trim(Url(base, init + [p], false)) == Url(base, init + [p], false)
  {
    LastOfQuery(init, p);
    ShowEnds(p);
    Associate(base + "?", Query(init, true), Show(p));
    LastCharacter(base + "?" + Query(init, true), Show(p));
  }

  lemma LastCharacter(a: string, b: string)
    requires b != ""
    ensures (a + b)[|a + b| - 1] == b[|b| - 1]
  {
  }

  /** A value does not get hit by losing its end. */
  lemma ShorterIsUnhit(v: string, name: string)
    requires v != "" && Unhit(v, name)
    ensures Unhit(v[..|v| - 1], name)
  {
    var w, pat := v[..|v| - 1], "?" + name + "=";
    var i := IndexOf(w, pat, 0);
    IndexOfMatches(w, pat, 0);
    if i != -1 {
      assert v[i..i + |pat|] == w[i..i + |pat|];
      IndexOfIsFirst(v, pat, 0, i);
    }
  }

  lemma ShortenKeeps(ps: seq<Param>, name: string)
    ensures WellFormed(ps) ==> WellFormed(Shorten(ps))
    ensures NoHit(ps, name) ==> NoHit(Shorten(ps), name)
  {
    if ps != [] && !Ended(ps[|ps| - 1].value) && Unhit(ps[|ps| - 1].value, name) {
      ShorterIsUnhit(ps[|ps| - 1].value, name);
    }
  }

  /** Only an unwanted value is shortened. */
  lemma ShortenIsWanted(ps: seq<Param>, names: seq<string>)
    requires WantedEnded(ps, names)
    ensures Wanted(Shorten(ps), names) == Wanted(ps, names) && WantedEnded(Shorten(ps), names)
  {
    var n, short := |ps| - 1, Shorten(ps);
    if ps != [] && !Ended(ps[n].value) {
      assert ps == ps[..n] + [ps[n]] && ps[n] in ps;
      WantedConcat(ps[..n], [ps[n]], names);
      WantedConcat(ps[..n], [short[n]], names);
    }
  }

  lemma RenderedQuestionMark(base: string, ps: seq<Param>)
    requires Plain(base)
    ensures IndexOf(Render(base, ps), "?", 0) == -1 <==> ps == []
  {
    var url := Render(base, ps);
    if ps == [] {
      Skip(url, "?", 0, |url|);
    } else {
      assert url[|base|..|base| + 1] == "?";
      IndexOfIsFirst(url, "?", 0, |base|);
    }
  }

  /** What a pass and the trimming leave, as a list: nothing wanted is gone. */
  lemma OnePass(base: string, ps: seq<Param>, open: bool, names: seq<string>) returns (rest: seq<Param>)
    requires Plain(base) && WellFormed(ps) && PlainNames(names) && NoHits(ps, names) && WantedEnded(ps, names)
    ensures Trim(CutAll(Url(base, ps, open), names)) == Render(base, rest)
    ensures WellFormed(rest) && NoHits(rest, names) && WantedEnded(rest, names)
    ensures Wanted(rest, names) == Wanted(ps, names)
  {
    var cut := WithoutEach(ps, names);
    var open' := CutAllIsWithoutEach(base, ps, open, names);
    WithoutEachIsWanted(ps, names, names);
    TrimCloses(base, cut, open');
    ShortenIsWanted(cut, names);
    ShortenKeeps(cut, "");
    forall n | n in names ensures NoHit(cut, n) && NoHit(Shorten(cut), n) {
      assert NoHit(ps, n);
      ShortenKeeps(cut, n);
    }
    rest := if open' then cut else Shorten(cut);
  }

  /**
   * On a well-formed URL the string surgery is a filter on the parameter list: exactly the
   * parameters with an unwanted name go, duplicates included, and no separator is left dangling.
   */
  lemma {:induction false} CleanedIsFilter(base: string, ps: seq<Param>, names: seq<string>)
    requires Plain(base) && WellFormed(ps) && PlainNames(names) && NoHits(ps, names) && WantedEnded(ps, names)
    ensures Cleaned(Render(base, ps), names) == Render(base, Wanted(ps, names))
    decreases |Render(base, ps)|
  {
    RenderedQuestionMark(base, ps);
    if ps != [] {
      var url := Url(base, ps, false);
      if CutsNothing(url, names) {
        NothingToCut(base, ps, false, names);
        AllWanted(ps, names);
      } else {
        var rest := OnePass(base, ps, false, names);
        CutAllShrinks(url, names);
        CleanedIsFilter(base, rest, names);
      }
    }
  }

  ghost predicate AnyUnwanted(ps: seq<Param>, names: seq<string>) {
    exists p :: p in ps && p.key in names
  }

  /** What the filter makes of a URL: untouched if nothing is unwanted, tidy otherwise. */
  ghost function Filtered(base: string, ps: seq<Param>, open: bool, names: seq<string>): string {
    if AnyUnwanted(ps, names) then Render(base, Wanted(ps, names)) else Url(base, ps, open)
  }

  lemma NothingUnwanted(base: string, ps: seq<Param>, open: bool, names: seq<string>)
    requires Plain(base) && WellFormed(ps) && PlainNames(names) && NoHits(ps, names) && !AnyUnwanted(ps, names)
    ensures CutsNothing(Url(base, ps, open), names)
  {
    forall n | n in names ensures StartOf(Url(base, ps, open), n) == -1 {
      assert NoHit(ps, n) && PlainName(n);
      StartOfFirst(base, ps, open, n);
    }
    CutsNothingIff(Url(base, ps, open), names);
  }

  /**
   * The same for a query that may end in a separator, or be empty: once a parameter is cut the
   * result is tidy, and a URL without unwanted parameters is left exactly as it is.
   */
  lemma CleanedUrlIs(base: string, ps: seq<Param>, open: bool, names: seq<string>)
    requires Plain(base) && WellFormed(ps) && PlainNames(names) && NoHits(ps, names) && WantedEnded(ps, names)
    ensures Cleaned(Url(base, ps, open), names) == Filtered(base, ps, open, names)
  {
    var url := Url(base, ps, open);
    if AnyUnwanted(ps, names) {
      UrlHasQuestionMark(base, ps, open);
      var rest := OnePass(base, ps, open, names);
      if CutsNothing(url, names) {
        NothingToCut(base, ps, open, names);
      }
      CutAllShrinks(url, names);
      CleanedIsFilter(base, rest, names);
    } else {
      NothingUnwanted(base, ps, open, names);
    }
  }

  lemma UrlHasQuestionMark(base: string, ps: seq<Param>, open: bool)
    ensures IndexOf(Url(base, ps, open), "?", 0) != -1
  {
    var url := Url(base, ps, open);
    assert url[|base|..|base| + 1] == "?";
    IndexOfIsFirst(url, "?", 0, |base|);
  }

  // ---- Question marks in values ------------------------------------------------------------------

  lemma HitInText(head: string, value: string, tail: string, name: string)
    requires !Unhit(value, name)
    ensures StartOf(head + (value + tail), name) != -1
  {
    var pat := "?" + name + "=";
    var j := IndexOf(value, pat, 0);
    IndexOfMatches(value, pat, 0);
    assert (value + tail)[j..j + |pat|] == value[j..j + |pat|];
    IndexOfIsFirst(head + (value + tail), pat, 0, |head| + j);
  }

  /** What is hit in a value is found in the URL. */
  lemma HitInUrl(base: string, ps: seq<Param>, i: nat, open: bool, name: string)
    requires i < |ps| && !Unhit(ps[i].value, name)
    ensures StartOf(Url(base, ps, open), name) != -1
  {
    var p, rest := ps[i], ps[i..];
    var head := base + "?" + Query(ps[..i], true);
    var tail := (if |rest| > 1 || open then "&" else "") + Query(rest[1..], open);
    HeadOfUrl(base, ps, i, open);
    assert Query(rest, open) == (p.key + "=") + (p.value + tail);
    Associate(head, p.key + "=", p.value + tail);
    HitInText(head + (p.key + "="), p.value, tail, name);
  }

  lemma {:induction false} WantedHas(ps: seq<Param>, names: seq<string>, p: Param)
    requires p in ps && p.key !in names
    ensures p in Wanted(ps, names)
    decreases |ps|
  {
    if ps[0] != p {
      WantedHas(ps[1..], names, p);
    }
  }

  // ---- Question marks at the end of values -------------------------------------------------------

  function Minus(a: nat, b: nat): nat {
    if a <= b then 0 else a - b
  }

  function Occurrences(ps: seq<Param>, name: string): nat {
    if ps == [] then 0 else (if ps[0].key == name then 1 else 0) + Occurrences(ps[1..], name)
  }

  lemma {:induction false} OccursIff(ps: seq<Param>, name: string)
    ensures Occurrences(ps, name) > 0 <==> First(ps, name) < |ps|
    decreases |ps|
  {
    if ps != [] {
      OccursIff(ps[1..], name);
    }
  }

  /** How often a pass cuts that name. */
  function Listed(names: seq<string>, name: string): (c: nat)
    ensures c > 0 <==> name in names
  {
    if names == [] then 0 else (if names[0] == name then 1 else 0) + Listed(names[1..], name)
  }

  /** How many passes it takes to cut `count` parameters, `each` in one pass. */
  function PassesFor(count: nat, each: nat): nat
    requires each > 0
  {
    if count == 0 then 0 else 1 + PassesFor(Minus(count, each), each)
  }

  /** How many passes find a parameter with that name in front of, or behind, the last wanted one. */
  function Passes(front: seq<Param>, behind: seq<Param>, names: seq<string>, name: string): nat
    requires name in names
  {
    PassesFor(Occurrences(front, name) + Occurrences(behind, name), Listed(names, name))
  }

  /** That name is still found when nothing is left behind the last wanted parameter, not even a separator. */
  ghost predicate Outlasts(front: seq<Param>, behind: seq<Param>, open: bool, names: seq<string>, name: string) {
    && name in names
    && Passes(front, behind, names, name) > (if open then 1 else 0)
    && forall m {:trigger Occurrences(behind, m)} :: m in names && Occurrences(behind, m) > 0 ==>
         Passes(front, behind, names, m) < Passes(front, behind, names, name)
  }

  ghost predicate AnyOutlasts(front: seq<Param>, behind: seq<Param>, open: bool, names: seq<string>) {
    exists n :: Outlasts(front, behind, open, names, n)
  }

  /** What one pass leaves of the parameters in front of and behind the last wanted one. */
  ghost predicate Passed(a: seq<Param>, b: seq<Param>, a': seq<Param>, b': seq<Param>, names: seq<string>) {
    forall n :: PassedAt(a, b, a', b', names, n)
  }

  predicate PassedAt(a: seq<Param>, b: seq<Param>, a': seq<Param>, b': seq<Param>, names: seq<string>, n: string) {
    var rest := Occurrences(a', n) + Occurrences(b', n);
    && rest == Minus(Occurrences(a, n) + Occurrences(b, n), Listed(names, n))
    && Occurrences(b', n) == if Occurrences(b, n) <= rest then Occurrences(b, n) else rest
  }

  lemma {:induction false} OccurrencesConcat(a: seq<Param>, b: seq<Param>, name: string)
    ensures Occurrences(a + b, name) == Occurrences(a, name) + Occurrences(b, name)
    decreases |a|
  {
    if a == [] {
      assert a + b == b;
    } else {
      assert (a + b)[1..] == a[1..] + b;
      OccurrencesConcat(a[1..], b, name);
    }
  }

  lemma OccurrencesWithout(ps: seq<Param>, name: string, n: string)
    ensures Occurrences(WithoutFirst(ps, name), n) == Minus(Occurrences(ps, n), if n == name then 1 else 0)
  {
    var i := First(ps, name);
    OccursIff(ps, name);
    if i < |ps| {
      var p := ps[i];
      assert ps == (ps[..i] + [p]) + ps[i + 1..];
      OccurrencesConcat(ps[..i] + [p], ps[i + 1..], n);
      OccurrencesConcat(ps[..i], [p], n);
      OccurrencesConcat(ps[..i], ps[i + 1..], n);
      assert [p][1..] == [];
    }
  }

  lemma {:induction false} FirstOfConcat(a: seq<Param>, b: seq<Param>, name: string)
    ensures First(a + b, name) == if First(a, name) < |a| then First(a, name) else |a| + First(b, name)
    decreases |a|
  {
    if a == [] {
      assert a + b == b;
    } else {
      assert (a + b)[1..] == a[1..] + b;
      FirstOfConcat(a[1..], b, name);
    }
  }

  lemma DropFront(a: seq<Param>, b: seq<Param>, i: nat)
    requires i < |a|
    ensures (a + b)[..i] + (a + b)[i + 1..] == a[..i] + a[i + 1..] + b
  {
    assert (a + b)[..i] == a[..i];
    assert (a + b)[i + 1..] == a[i + 1..] + b;
  }

  lemma DropBack(a: seq<Param>, b: seq<Param>, i: nat)
    requires i < |b|
    ensures (a + b)[..|a| + i] + (a + b)[|a| + i + 1..] == a + (b[..i] + b[i + 1..])
  {
    assert (a + b)[..|a| + i] == a + b[..i];
    assert (a + b)[|a| + i + 1..] == b[i + 1..];
  }

  lemma WithoutFirstIs(ps: seq<Param>, name: string, i: nat)
    requires i == First(ps, name)
    ensures WithoutFirst(ps, name) == if i == |ps| then ps else ps[..i] + ps[i + 1..]
  {
  }

  lemma WithoutFirstInFront(a: seq<Param>, b: seq<Param>, name: string)
    requires First(a, name) < |a|
    ensures WithoutFirst(a + b, name) == WithoutFirst(a, name) + b
  {
    var i := First(a, name);
    FirstOfConcat(a, b, name);
    WithoutFirstIs(a, name, i);
    WithoutFirstIs(a + b, name, i);
    DropFront(a, b, i);
  }

  lemma WithoutFirstBehind(a: seq<Param>, b: seq<Param>, name: string)
    requires First(a, name) == |a|
    ensures WithoutFirst(a + b, name) == a + WithoutFirst(b, name)
  {
    var j := First(b, name);
    FirstOfConcat(a, b, name);
    WithoutFirstIs(b, name, j);
    WithoutFirstIs(a + b, name, |a| + j);
    if j < |b| {
      DropBack(a, b, j);
    }
  }

  lemma WithoutFirstAroundIs(a: seq<Param>, w: Param, b: seq<Param>, name: string)
    requires w.key != name
    ensures WithoutFirst(a + [w] + b, name)
      == if First(a, name) < |a| then WithoutFirst(a, name) + [w] + b else a + [w] + WithoutFirst(b, name)
  {
    assert [w][1..] == [] && First([w], name) == 1;
    FirstOfConcat(a, [w], name);
    if First(a, name) < |a| {
      WithoutFirstInFront(a + [w], b, name);
      WithoutFirstInFront(a, [w], name);
    } else {
      WithoutFirstBehind(a + [w], b, name);
    }
  }

  lemma OneIsPassed(a: seq<Param>, b: seq<Param>, a': seq<Param>, b': seq<Param>, name: string, n: string)
    requires if First(a, name) < |a| then a' == WithoutFirst(a, name) && b' == b else a' == a && b' == WithoutFirst(b, name)
    ensures PassedAt(a, b, a', b', [name], n)
  {
    assert [name][1..] == [] && Listed([name], n) == if n == name then 1 else 0;
    OccursIff(a, name);
    OccurrencesWithout(a, name, n);
    OccurrencesWithout(b, name, n);
  }

  /** One name, around the last wanted parameter. */
  lemma WithoutFirstAround(a: seq<Param>, w: Param, b: seq<Param>, name: string) returns (a': seq<Param>, b': seq<Param>)
    requires w.key != name
    ensures WithoutFirst(a + [w] + b, name) == a' + [w] + b' && Passed(a, b, a', b', [name])
    ensures forall p :: p in b' ==> p in b
  {
    WithoutFirstAroundIs(a, w, b, name);
    WithoutFirstIsPart(b, name);
    if First(a, name) < |a| {
      a', b' := WithoutFirst(a, name), b;
    } else {
      a', b' := a, WithoutFirst(b, name);
    }
    forall n ensures PassedAt(a, b, a', b', [name], n) {
      OneIsPassed(a, b, a', b', name, n);
    }
  }

  /** One pass, around the last wanted parameter. */
  lemma {:induction false} WithoutEachAround(a: seq<Param>, w: Param, b: seq<Param>, names: seq<string>)
    returns (a': seq<Param>, b': seq<Param>)
    requires w.key !in names
    ensures WithoutEach(a + [w] + b, names) == a' + [w] + b' && Passed(a, b, a', b', names)
    ensures forall p :: p in b' ==> p in b
    decreases |names|
  {
    a', b' := a, b;
    if names != [] {
      var a1, b1 := WithoutFirstAround(a, w, b, names[0]);
      a', b' := WithoutEachAround(a1, w, b1, names[1..]);
      forall n ensures PassedAt(a, b, a', b', names, n) {
        PassedOn(a, b, a1, b1, a', b', names, n);
      }
    } else {
      forall n ensures PassedAt(a, b, a, b, names, n) {}
    }
  }

  lemma PassedOn(a: seq<Param>, b: seq<Param>, a1: seq<Param>, b1: seq<Param>, a': seq<Param>, b': seq<Param>,
                 names: seq<string>, n: string)
    requires names != [] && Passed(a, b, a1, b1, [names[0]]) && Passed(a1, b1, a', b', names[1..])
    ensures PassedAt(a, b, a', b', names, n)
  {
    assert [names[0]][1..] == [] && Listed([names[0]], n) + Listed(names[1..], n) == Listed(names, n);
    assert PassedAt(a, b, a1, b1, [names[0]], n) && PassedAt(a1, b1, a', b', names[1..], n);
  }

  lemma ShortenOccurs(ps: seq<Param>, name: string)
    ensures Occurrences(Shorten(ps), name) == Occurrences(ps, name)
  {
    var n := |ps| - 1;
    if ps != [] && !Ended(ps[n].value) {
      var short := Shorten(ps)[n];
      assert ps == ps[..n] + [ps[n]];
      OccurrencesConcat(ps[..n], [ps[n]], name);
      OccurrencesConcat(ps[..n], [short], name);
      assert [short][1..] == [] && [ps[n]][1..] == [];
    }
  }

  lemma PassesDrop(count: nat, each: nat)
    requires each > 0
    ensures PassesFor(Minus(count, each), each) == Minus(PassesFor(count, each), 1)
    ensures PassesFor(count, each) == 0 <==> count == 0
  {
  }

  /** A name outlasts the others after a pass exactly if it did before. */
  lemma OutlastsStep(a: seq<Param>, b: seq<Param>, a': seq<Param>, b': seq<Param>, open: bool, names: seq<string>, name: string)
    requires Passed(a, b, a', b', names) && (open || b != []) && forall p :: p in b ==> p.key in names
    ensures Outlasts(a, b, open, names, name) <==> Outlasts(a', b', false, names, name)
  {
    if name in names {
      forall m | m in names
        ensures Passes(a', b', names, m) == Minus(Passes(a, b, names, m), 1)
        ensures Occurrences(b', m) > 0 ==> Occurrences(b, m) > 0 && Passes(a, b, names, m) > 1
        ensures Occurrences(b, m) > 0 && Occurrences(b', m) == 0 ==> Passes(a, b, names, m) == 1
      {
        OnePassLess(a, b, a', b', names, m);
      }
      if b != [] {
        OccursIff(b, b[0].key);
        assert b[0] in b && Occurrences(b, b[0].key) > 0;
      }
    }
  }

  lemma OnePassLess(a: seq<Param>, b: seq<Param>, a': seq<Param>, b': seq<Param>, names: seq<string>, m: string)
    requires m in names && Passed(a, b, a', b', names)
    ensures Passes(a', b', names, m) == Minus(Passes(a, b, names, m), 1)
    ensures Occurrences(b', m) > 0 ==> Occurrences(b, m) > 0 && Passes(a, b, names, m) > 1
    ensures Occurrences(b, m) > 0 && Occurrences(b', m) == 0 ==> Passes(a, b, names, m) == 1
  {
    assert PassedAt(a, b, a', b', names, m);
    PassesDrop(Occurrences(a, m) + Occurrences(b, m), Listed(names, m));
    PassesDrop(Occurrences(a', m) + Occurrences(b', m), Listed(names, m));
  }

  /** A list around its last wanted parameter. */
  ghost predicate Around(ps: seq<Param>, a: seq<Param>, w: Param, b: seq<Param>, names: seq<string>) {
    ps == a + [w] + b && w.key !in names && forall p :: p in b ==> p.key in names
  }

  lemma {:induction false} NoneWanted(ps: seq<Param>, names: seq<string>)
    requires forall p :: p in ps ==> p.key in names
    ensures Wanted(ps, names) == []
    decreases |ps|
  {
    if ps != [] {
      NoneWanted(ps[1..], names);
    }
  }

  lemma WantedAround(ps: seq<Param>, a: seq<Param>, w: Param, b: seq<Param>, names: seq<string>)
    requires Around(ps, a, w, b, names)
    ensures Wanted(ps, names) == Wanted(a, names) + [w]
  {
    WantedConcat(a + [w], b, names);
    WantedConcat(a, [w], names);
    NoneWanted(b, names);
    assert [w][1..] == [];
  }

  function Shortened(w: Param): Param {
    if Ended(w.value) then w else Param(w.key, w.value[..|w.value| - 1])
  }

  /** Shortening the last parameter touches the last wanted one only if nothing is behind it. */
  lemma ShortenAround(ps: seq<Param>, a: seq<Param>, w: Param, b: seq<Param>, names: seq<string>)
    requires Around(ps, a, w, b, names)
    ensures Around(Shorten(ps), a, if b == [] then Shortened(w) else w, Shorten(b), names)
  {
    var n := |ps| - 1;
    assert ps[n] == if b == [] then w else b[|b| - 1];
    if b == [] {
      assert ps[..n] == a;
    } else {
      assert ps[..n] == a + [w] + b[..|b| - 1];
    }
  }

  /** What a pass and the trimming leave, around the last wanted parameter. */
  lemma PassAround(base: string, ps: seq<Param>, a: seq<Param>, w: Param, b: seq<Param>, open: bool, names: seq<string>)
    returns (rest: seq<Param>, a': seq<Param>, b': seq<Param>)
    requires Plain(base) && WellFormed(ps) && PlainNames(names) && NoHits(ps, names) && Around(ps, a, w, b, names)
    ensures Trim(CutAll(Url(base, ps, open), names)) == Render(base, rest) && WellFormed(rest) && NoHits(rest, names)
    ensures Around(rest, a', if open || b != [] then w else Shortened(w), b', names) && Passed(a, b, a', b', names)
    ensures Wanted(rest, names) == Wanted(a, names) + [if open || b != [] then w else Shortened(w)]
  {
    var cut := WithoutEach(ps, names);
    var open' := CutAllIsWithoutEach(base, ps, open, names);
    var kept := if open || b != [] then w else Shortened(w);
    assert ps[|ps| - 1] == if b == [] then w else b[|b| - 1];
    a', b' := WithoutEachAround(a, w, b, names);
    SameFront(ps, a, b, cut, a', b', w, names);
    TrimCloses(base, cut, open');
    if open' {
      rest := cut;
    } else {
      rest := Shorten(cut);
      ShortenAround(cut, a', w, b', names);
      StillBehind(ps, a, w, b, cut, a', b', names);
      ShortenPassed(a, b, a', b', names);
      b' := Shorten(b');
    }
    WantedAround(rest, a', kept, b', names);
  }

  lemma SameFront(ps: seq<Param>, a: seq<Param>, b: seq<Param>, cut: seq<Param>, a': seq<Param>, b': seq<Param>, w: Param,
                  names: seq<string>)
    requires WellFormed(ps) && NoHits(ps, names) && cut == WithoutEach(ps, names)
    requires Around(ps, a, w, b, names) && Around(cut, a', w, b', names)
    ensures Wanted(a', names) == Wanted(a, names)
    ensures WellFormed(cut) && NoHits(cut, names) && WellFormed(Shorten(cut)) && NoHits(Shorten(cut), names)
  {
    WithoutEachIsWanted(ps, names, names);
    WantedAround(ps, a, w, b, names);
    WantedAround(cut, a', w, b', names);
    assert Wanted(a, names) == (Wanted(a, names) + [w])[..|Wanted(a, names)|];
    ShortenKeeps(cut, "");
    forall n | n in names ensures NoHit(cut, n) && NoHit(Shorten(cut), n) {
      assert NoHit(ps, n);
      ShortenKeeps(cut, n);
    }
  }

  lemma StillBehind(ps: seq<Param>, a: seq<Param>, w: Param, b: seq<Param>, cut: seq<Param>, a': seq<Param>,
                    b': seq<Param>, names: seq<string>)
    requires Around(ps, a, w, b, names) && Around(cut, a', w, b', names) && cut[|cut| - 1] == ps[|ps| - 1]
    ensures b == [] <==> b' == []
  {
    assert ps[|ps| - 1] == if b == [] then w else b[|b| - 1];
    assert cut[|cut| - 1] == if b' == [] then w else b'[|b'| - 1];
  }

  lemma ShortenPassed(a: seq<Param>, b: seq<Param>, a': seq<Param>, b': seq<Param>, names: seq<string>)
    requires Passed(a, b, a', b', names)
    ensures Passed(a, b, a', Shorten(b'), names)
  {
    forall n ensures PassedAt(a, b, a', Shorten(b'), names, n) {
      assert PassedAt(a, b, a', b', names, n);
      ShortenOccurs(b', n);
    }
  }

  lemma ShortenedIsShorter(base: string, init: seq<Param>, w: Param)
    ensures |Render(base, init + [Shortened(w)])| + (if Ended(w.value) then 0 else 1) == |Render(base, init + [w])|
  {
    LastOfQuery(init, w);
    LastOfQuery(init, Shortened(w));
  }

  /** Cleaning keeps at most what the filter keeps. */
  lemma {:induction false} CleanedIsNoLonger(base: string, ps: seq<Param>, names: seq<string>)
    requires Plain(base) && WellFormed(ps) && PlainNames(names) && NoHits(ps, names)
    ensures |Cleaned(Render(base, ps), names)| <= |Render(base, Wanted(ps, names))|
    decreases |Render(base, ps)|
  {
    if p :| p in ps && p.key !in names {
      var i := LastWanted(ps, names);
      var a, w, b := ps[..i], ps[i], ps[i + 1..];
      WantedAround(ps, a, w, b, names);
      var url := Url(base, ps, false);
      CutAllShrinks(url, names);
      if CutsNothing(url, names) {
        NothingToCut(base, ps, false, names);
        AllWanted(ps, names);
      } else {
        RenderedQuestionMark(base, ps);
        var rest, _, _ := PassAround(base, ps, a, w, b, false, names);
        CleanedIsNoLonger(base, rest, names);
        ShortenedIsShorter(base, Wanted(a, names), w);
      }
    } else {
      CleanedIsFilter(base, ps, names);
    }
  }

  ghost predicate LastWantedAt(ps: seq<Param>, names: seq<string>, i: nat)
    requires i < |ps|
  {
    Around(ps, ps[..i], ps[i], ps[i + 1..], names)
  }

  lemma InThree(ps: seq<Param>, i: nat)
    requires i < |ps|
    ensures ps == ps[..i] + [ps[i]] + ps[i + 1..]
  {
  }

  lemma {:induction false} LastWanted(ps: seq<Param>, names: seq<string>) returns (i: nat)
    requires exists p :: p in ps && p.key !in names
    ensures i < |ps| && LastWantedAt(ps, names, i)
  {
    var n := |ps| - 1;
    if ps[n].key !in names {
      i := n;
    } else {
      var init := ps[..n];
      assert ps == init + [ps[n]];
      i := LastWanted(init, names);
      assert ps[i + 1..] == init[i + 1..] + [ps[n]];
    }
    InThree(ps, i);
  }

  lemma NoneOutlasts(ps: seq<Param>, a: seq<Param>, w: Param, b: seq<Param>, open: bool, names: seq<string>, name: string)
    requires Around(ps, a, w, b, names) && !AnyUnwanted(ps, names)
    ensures !Outlasts(a, b, open, names, name)
  {
    if name in names {
      NotThere(a, name);
      NotThere(b, name);
    }
  }

  lemma NotThere(ps: seq<Param>, name: string)
    requires forall p :: p in ps ==> p.key != name
    ensures Occurrences(ps, name) == 0
  {
    OccursIff(ps, name);
  }

  lemma SomeOutlasts(ps: seq<Param>, a: seq<Param>, w: Param, names: seq<string>) returns (name: string)
    requires Around(ps, a, w, [], names) && AnyUnwanted(ps, names)
    ensures Outlasts(a, [], false, names, name)
  {
    var p :| p in ps && p.key in names;
    name := p.key;
    var i :| 0 <= i < |a| && a[i] == p;
    OccursIff(a, name);
  }

  /** With nothing hit: the last wanted value is kept exactly if it ends otherwise, or no name outlasts what is behind it. */
  lemma {:induction false} KeptIff(base: string, ps: seq<Param>, a: seq<Param>, w: Param, b: seq<Param>, open: bool, names: seq<string>)
    requires Plain(base) && WellFormed(ps) && PlainNames(names) && NoHits(ps, names) && Around(ps, a, w, b, names)
    ensures Cleaned(Url(base, ps, open), names) == Filtered(base, ps, open, names)
      <==> Ended(w.value) || !AnyOutlasts(a, b, open, names)
    decreases |Url(base, ps, open)|
  {
    var url := Url(base, ps, open);
    if AnyUnwanted(ps, names) {
      UrlHasQuestionMark(base, ps, open);
      if CutsNothing(url, names) {
        NothingToCut(base, ps, open, names);
      }
      CutAllShrinks(url, names);
      WantedAround(ps, a, w, b, names);
      var rest, a', b' := PassAround(base, ps, a, w, b, open, names);
      if open || b != [] || Ended(w.value) {
        KeptIff(base, rest, a', w, b', false, names);
        FilteredIsWanted(base, rest, names);
        if open || b != [] {
          forall n ensures Outlasts(a, b, open, names, n) <==> Outlasts(a', b', false, names, n) {
            OutlastsStep(a, b, a', b', open, names, n);
          }
        }
      } else {
        var n := SomeOutlasts(ps, a, w, names);
        CleanedIsNoLonger(base, rest, names);
        ShortenedIsShorter(base, Wanted(a, names), w);
      }
    } else {
      NothingUnwanted(base, ps, open, names);
      forall n ensures !Outlasts(a, b, open, names, n) {
        NoneOutlasts(ps, a, w, b, open, names, n);
      }
    }
  }

  lemma FilteredIsWanted(base: string, ps: seq<Param>, names: seq<string>)
    requires ps != []
    ensures Filtered(base, ps, false, names) == Render(base, Wanted(ps, names))
  {
    if !AnyUnwanted(ps, names) {
      AllWanted(ps, names);
    }
  }

  ghost predicate NibbledAt(ps: seq<Param>, open: bool, names: seq<string>, i: nat)
    requires i < |ps|
  {
    LastWantedAt(ps, names, i) && !Ended(ps[i].value) && AnyOutlasts(ps[..i], ps[i + 1..], open, names)
  }

  /** The last wanted value ends in a question mark, and some name is still found when it has become the end of the URL. */
  ghost predicate Nibbled(ps: seq<Param>, open: bool, names: seq<string>) {
    exists i: nat :: i < |ps| && NibbledAt(ps, open, names, i)
  }

  // ---- The exact condition ----------------------------------------------------------------------

  /** In every list, a wanted value that looks like the start of a query with an unwanted name is damaged. */
  lemma HitBreaksFilter(base: string, ps: seq<Param>, open: bool, names: seq<string>, p: Param, name: string)
    requires Plain(base) && p in ps && p.key !in names && name in names && !Unhit(p.value, name)
    ensures Cleaned(Url(base, ps, open), names) != Filtered(base, ps, open, names)
  {
    var ws := Wanted(ps, names);
    WantedHas(ps, names, p);
    var i :| 0 <= i < |ws| && ws[i] == p;
    var j :| 0 <= j < |ps| && ps[j] == p;
    HitInUrl(base, ws, i, false, name);
    HitInUrl(base, ps, j, open, name);
    CutsNothingIff(Filtered(base, ps, open, names), names);
    RenderedQuestionMark(base, ws);
    UrlHasQuestionMark(base, ps, open);
    NothingUnwantedLeft(Url(base, ps, open), names);
  }

  /**
   * For all lists whose unwanted values are not hit: the string surgery is the filter exactly if
   * no wanted value is hit and the end of the last wanted one is not trimmed.
   */
  lemma FilterIff(base: string, ps: seq<Param>, open: bool, names: seq<string>)
    requires Plain(base) && WellFormed(ps) && PlainNames(names)
    requires forall p, n :: p in ps && p.key in names && n in names ==> Unhit(p.value, n)
    ensures Cleaned(Url(base, ps, open), names) == Filtered(base, ps, open, names)
      <==> !Nibbled(ps, open, names) && forall p, n :: p in ps && p.key !in names && n in names ==> Unhit(p.value, n)
  {
    if p, n :| p in ps && p.key !in names && n in names && !Unhit(p.value, n) {
      HitBreaksFilter(base, ps, open, names, p, n);
    } else {
      forall n | n in names ensures NoHit(ps, n) {}
      if p :| p in ps && p.key !in names {
        var i := LastWanted(ps, names);
        KeptIff(base, ps, ps[..i], ps[i], ps[i + 1..], open, names);
        LastWantedIsOne(ps, i, open, names);
      } else {
        CleanedUrlIs(base, ps, open, names);
      }
    }
  }

  lemma OnlyOneIsLast(ps: seq<Param>, names: seq<string>, i: nat, j: nat)
    requires i < j < |ps|
    ensures !(LastWantedAt(ps, names, i) && LastWantedAt(ps, names, j))
  {
    assert ps[i + 1..][j - i - 1] == ps[j];
  }

  lemma LastWantedIsOne(ps: seq<Param>, i: nat, open: bool, names: seq<string>)
    requires i < |ps| && LastWantedAt(ps, names, i)
    ensures Nibbled(ps, open, names) <==> NibbledAt(ps, open, names, i)
  {
    forall j: nat | j < |ps| && j != i ensures !NibbledAt(ps, open, names, j) {
      OnlyOneIsLast(ps, names, if i < j then i else j, if i < j then j else i);
    }
  }

  /** What the login page relies on: exactly when only the three parameters of an earlier attempt disappear. */
  lemma ResetFilterIff(base: string, ps: seq<Param>, open: bool, names: seq<string>)
    requires names == ["lt", "error_message", "get-lt"] && Plain(base) && WellFormed(ps)
    requires forall p, n :: p in ps && p.key in names && n in names ==> Unhit(p.value, n)
    ensures Cleaned(Url(base, ps, open), RESET_NAMES) == Filtered(base, ps, open, names)
      <==> !Nibbled(ps, open, names) && forall p, n :: p in ps && p.key !in names && n in names ==> Unhit(p.value, n)
  {
    assert PlainName("lt") && PlainName("error_message") && PlainName("get-lt");
    FilterIff(base, ps, open, RESET_NAMES);
  }

  // ---- Hits in unwanted values -----------------------------------------------------------------------

  /** After a question mark that does not begin the pattern the search goes on behind it. */
  lemma QuestionThen(inner: string, name: string)
    requires !Matches(inner, name + "=", 0)
    ensures var i := IndexOf(inner, "?" + name + "=", 0);
      IndexOf("?" + inner, "?" + name + "=", 0) == if i == -1 then -1 else 1 + i
  {
    var pat := "?" + name + "=";
    assert pat == ['?'] + (name + "=");
    MatchesCons('?', inner, name + "=");
    Shift("?", inner, pat, 0);
  }

  /** Searching past parameters whose values are not hit. */
  lemma {:induction false} PastQuery(ps: seq<Param>, rest: string, name: string)
    requires WellFormed(ps) && PlainName(name) && NoHit(ps, name)
    ensures var i := IndexOf(rest, "?" + name + "=", 0);
      IndexOf(Query(ps, true) + rest, "?" + name + "=", 0) == if i == -1 then -1 else |Query(ps, true)| + i
    decreases |ps|
  {
    var pat := "?" + name + "=";
    if ps == [] {
      assert Query(ps, true) + rest == rest;
    } else {
      var p, after := ps[0], Query(ps[1..], true);
      PastQuery(ps[1..], rest, name);
      assert Unhit(p.value, name);
      PastParam(p, after, rest);
      SkipPrefix("&", after + rest, pat);
      PastValue(p.value, "&" + (after + rest), pat);
      SkipPrefix(p.key + "=", p.value + ("&" + (after + rest)), pat);
    }
  }

  lemma PastParam(p: Param, after: string, rest: string)
    ensures Show(p) + "&" + after + rest == (p.key + "=") + (p.value + ("&" + (after + rest)))
  {
  }

  /** A match inside a string stays the first one when something is appended. */
  lemma FirstInside(v: string, tail: string, pat: string)
    requires IndexOf(v, pat, 0) != -1
    ensures IndexOf(v + tail, pat, 0) == IndexOf(v, pat, 0)
  {
    var i, j := IndexOf(v, pat, 0), IndexOf(v + tail, pat, 0);
    IndexOfMatches(v, pat, 0);
    assert (v + tail)[i..i + |pat|] == v[i..i + |pat|];
    IndexOfIsFirst(v + tail, pat, 0, i);
    IndexOfMatches(v + tail, pat, 0);
    assert (v + tail)[j..j + |pat|] == v[j..j + |pat|];
    IndexOfIsFirst(v, pat, 0, j);
  }

  /** What stands in front of the first hit. */
  function BeforeHit(v: string, name: string): string
    requires !Unhit(v, name)
  {
    v[..IndexOf(v, "?" + name + "=", 0)]
  }

  function AfterHit(v: string, name: string): string
    requires !Unhit(v, name)
  {
    v[IndexOf(v, "?" + name + "=", 0) + 1..]
  }

  lemma HitParts(v: string, name: string)
    requires !Unhit(v, name)
    ensures v == BeforeHit(v, name) + ("?" + AfterHit(v, name)) && AfterHit(v, name) != ""
  {
    var i, pat := IndexOf(v, "?" + name + "=", 0), "?" + name + "=";
    IndexOfMatches(v, pat, 0);
    assert v[i] == v[i..i + |pat|][0] == '?';
  }

  /** What a cut at the hit in the i-th value leaves: the parameter behind becomes part of the value. */
  function Merge(ps: seq<Param>, i: nat, name: string): seq<Param>
    requires i < |ps| && !Unhit(ps[i].value, name)
  {
    var before := BeforeHit(ps[i].value, name) + "?";
    if i + 1 < |ps| then ps[..i] + [Param(ps[i].key, before + Show(ps[i + 1]))] + ps[i + 2..]
    else ps[..i] + [Param(ps[i].key, before)]
  }

  /** The text from the end of the i-th parameter on. */
  function Tail(ps: seq<Param>, i: nat, open: bool): string
    requires i < |ps|
  {
    if i + 1 < |ps| || open then "&" + Query(ps[i + 1..], open) else ""
  }

  lemma QueryFrom(ps: seq<Param>, i: nat, open: bool)
    requires i < |ps|
    ensures Query(ps[i..], open) == (ps[i].key + "=") + (ps[i].value + Tail(ps, i, open))
  {
    var rest := ps[i..];
    assert rest[0] == ps[i] && rest[1..] == ps[i + 1..];
    Associate(ps[i].key + "=", ps[i].value, Tail(ps, i, open));
    Associate(Show(ps[i]), if |rest| > 1 || open then "&" else "", Query(rest[1..], open));
  }

  lemma UrlAround(base: string, ps: seq<Param>, i: nat, open: bool)
    requires i < |ps|
    ensures Url(base, ps, open)
      == (base + "?" + Query(ps[..i], true)) + ((ps[i].key + "=") + (ps[i].value + Tail(ps, i, open)))
  {
    HeadOfUrl(base, ps, i, open);
    QueryFrom(ps, i, open);
  }

  /** The text up to the hit. */
  function HeadOfHit(base: string, ps: seq<Param>, i: nat, name: string): string
    requires i < |ps| && !Unhit(ps[i].value, name)
  {
    (base + "?" + Query(ps[..i], true)) + ((ps[i].key + "=") + BeforeHit(ps[i].value, name))
  }

  lemma Regroup(h: string, k: string, b: string, rest: string)
    ensures h + (k + (b + ("?" + rest))) == ((h + (k + b)) + "?") + rest
  {
  }

  lemma UrlAtHit(base: string, ps: seq<Param>, i: nat, open: bool, name: string)
    requires i < |ps| && !Unhit(ps[i].value, name)
    ensures Url(base, ps, open) == (HeadOfHit(base, ps, i, name) + "?") + (AfterHit(ps[i].value, name) + Tail(ps, i, open))
  {
    var v, tail := ps[i].value, Tail(ps, i, open);
    UrlAround(base, ps, i, open);
    HitParts(v, name);
    Associate(BeforeHit(v, name), "?" + AfterHit(v, name), tail);
    Associate("?", AfterHit(v, name), tail);
    Regroup(base + "?" + Query(ps[..i], true), ps[i].key + "=", BeforeHit(v, name), AfterHit(v, name) + tail);
  }

  lemma MergedUrl(base: string, ps: seq<Param>, i: nat, open: bool, name: string)
    requires i < |ps| && !Unhit(ps[i].value, name)
    ensures Url(base, Merge(ps, i, name), open && i + 1 < |ps|) == (HeadOfHit(base, ps, i, name) + "?") + Query(ps[i + 1..], open)
  {
    var ms, v, open' := Merge(ps, i, name), ps[i].value, open && i + 1 < |ps|;
    var h, k, b := base + "?" + Query(ps[..i], true), ps[i].key + "=", BeforeHit(v, name);
    UrlAround(base, ms, i, open');
    assert ms[..i] == ps[..i];
    if i + 1 < |ps| {
      var next, rest := ps[i + 1], ps[i + 1..];
      assert ms[i + 1..] == ps[i + 2..] == rest[1..];
      assert Query(rest, open) == Show(next) + Tail(ms, i, open');
      Associate(b + "?", Show(next), Tail(ms, i, open'));
      Associate(b, "?", Query(rest, open));
      Regroup(h, k, b, Query(rest, open));
    } else {
      assert ps[i + 1..] == [];
      assert (b + "?") + "" == b + ("?" + "");
      Regroup(h, k, b, "");
    }
  }

  /** The first hit is what the search for a query with that name finds, unless the first parameter has the name. */
  lemma HitIsFound(base: string, ps: seq<Param>, i: nat, open: bool, name: string)
    requires Plain(base) && WellFormed(ps) && PlainName(name) && i < |ps| && ps[0].key != name
    requires NoHit(ps[..i], name) && !Unhit(ps[i].value, name)
    ensures IndexOf(Url(base, ps, open), "?" + name + "=", 0) == |HeadOfHit(base, ps, i, name)|
  {
    var pat, p, q := "?" + name + "=", ps[i], Query(ps[..i], true);
    var inner := q + ((p.key + "=") + (p.value + Tail(ps, i, open)));
    UrlAround(base, ps, i, open);
    Associate(base + "?", q, (p.key + "=") + (p.value + Tail(ps, i, open)));
    assert base + "?" + inner == base + ("?" + inner);
    assert inner == Query(ps, open) by {
      assert Url(base, ps, open)[|base| + 1..] == inner;
    }
    QueryStarts(ps, open, name);
    QuestionThen(inner, name);
    SkipPrefix(base, "?" + inner, pat);
    PastQuery(ps[..i], (p.key + "=") + (p.value + Tail(ps, i, open)), name);
    SkipPrefix(p.key + "=", p.value + Tail(ps, i, open), pat);
    FirstInside(p.value, Tail(ps, i, open), pat);
  }

  lemma EndOfBody(body: string, tail: string, after: string)
    requires '&' !in body && body != "" && (if tail == "" then after == "" else tail == "&" + after)
    ensures (body + tail)[EndOf(body + tail, 0)..] == after
  {
    var q := body + tail;
    if tail == "" {
      assert q == body;
      Skip(q, "&", 0, |q|);
    } else {
      SkipPrefix(body, tail, "&");
      assert Matches(tail, "&", 0);
    }
  }

  /** A cut at a hit goes up to and over the next ampersand. */
  lemma CutIsMerge(base: string, ps: seq<Param>, i: nat, open: bool, name: string)
    requires Plain(base) && WellFormed(ps) && PlainName(name) && i < |ps| && ps[0].key != name
    requires NoHit(ps[..i], name) && !Unhit(ps[i].value, name)
    ensures StartOf(Url(base, ps, open), name) != -1
    ensures Cut(Url(base, ps, open), name) == Url(base, Merge(ps, i, name), open && i + 1 < |ps|)
  {
    var head, body, tail := HeadOfHit(base, ps, i, name) + "?", AfterHit(ps[i].value, name), Tail(ps, i, open);
    HitIsFound(base, ps, i, open, name);
    UrlAtHit(base, ps, i, open, name);
    HitParts(ps[i].value, name);
    assert ps[i] in ps;
    EndOfBody(body, tail, Query(ps[i + 1..], open));
    CutBehind(head, body + tail);
    MergedUrl(base, ps, i, open, name);
  }

  /** Only parameters with the name may have values that are hit or end in a question mark. */
  ghost predicate Tame(ps: seq<Param>, name: string) {
    WellFormed(ps) && forall p :: p in ps && p.key != name ==> Unhit(p.value, name) && Ended(p.value)
  }

  ghost predicate HasOther(ps: seq<Param>, name: string) {
    exists i :: 0 <= i < |ps| && ps[i].key != name
  }

  ghost predicate HitBetween(ps: seq<Param>, name: string, j: nat)
    requires j < |ps|
  {
    ps[j].key == name && !Unhit(ps[j].value, name) && HasOther(ps[..j], name) && HasOther(ps[j + 1..], name)
  }

  /** A parameter with the name has a hit value and stands between two others. */
  ghost predicate LosesOne(ps: seq<Param>, name: string) {
    exists j: nat :: j < |ps| && HitBetween(ps, name, j)
  }

  /** What a cut may do to a list: keep what is wanted and the danger, or make what is wanted less. */
  ghost predicate Stepped(ps: seq<Param>, rest: seq<Param>, name: string) {
    && Tame(rest, name)
    && (Wanted(rest, [name]) == Wanted(ps, [name]) || FewerWanted(ps, rest, name))
    && (Wanted(rest, [name]) == Wanted(ps, [name]) ==> (LosesOne(rest, name) <==> LosesOne(ps, name)))
    && (Wanted(rest, [name]) != Wanted(ps, [name]) ==> LosesOne(ps, name))
  }

  ghost predicate FewerWanted(ps: seq<Param>, rest: seq<Param>, name: string) {
    |Render("", Wanted(rest, [name]))| < |Render("", Wanted(ps, [name]))|
  }

  lemma NoHitNoLoss(ps: seq<Param>, name: string)
    requires NoHit(ps, name)
    ensures !LosesOne(ps, name)
  {
    assert forall j :: 0 <= j < |ps| ==> ps[j] in ps;
  }

  /** A parameter with the name that is the first of all does no harm. */
  lemma FirstDoesNoHarm(ps: seq<Param>, name: string)
    requires ps != [] && ps[0].key == name && Tame(ps, name)
    ensures Stepped(ps, ps[1..], name)
  {
    var rest := ps[1..];
    assert Wanted(ps, [name]) == [] + Wanted(rest, [name]);
    forall j: nat | 0 < j < |ps| ensures HitBetween(ps, name, j) <==> HitBetween(rest, name, j - 1) {
      assert ps[j + 1..] == rest[j..];
      assert ps[..j] == [ps[0]] + rest[..j - 1];
      OtherBehind(ps[0], rest[..j - 1], name);
    }
    assert !HitBetween(ps, name, 0);
    if j: nat :| j < |rest| && HitBetween(rest, name, j) {
      assert HitBetween(ps, name, j + 1);
    }
  }

  lemma OtherBehind(p: Param, ps: seq<Param>, name: string)
    requires p.key == name
    ensures HasOther([p] + ps, name) <==> HasOther(ps, name)
  {
    if i :| 0 <= i < |ps| && ps[i].key != name {
      assert ([p] + ps)[i + 1] == ps[i];
    }
    if i :| 0 <= i < |[p] + ps| && ([p] + ps)[i].key != name {
      assert ps[i - 1] == ([p] + ps)[i];
    }
  }

  /** The first hit loses something exactly if anything wanted is behind it. */
  lemma FirstHitDecides(ps: seq<Param>, i: nat, name: string)
    requires i < |ps| && NoHit(ps[..i], name) && !Unhit(ps[i].value, name)
    requires ps[0].key != name && ps[i].key == name
    ensures LosesOne(ps, name) <==> HasOther(ps[i + 1..], name)
  {
    assert ps[..i][0] == ps[0];
    forall j: nat | j < i ensures !HitBetween(ps, name, j) {
      assert ps[..i][j] == ps[j] && ps[j] in ps[..i];
    }
    forall j: nat | i <= j < |ps| && HitBetween(ps, name, j) ensures HasOther(ps[i + 1..], name) {
      var k :| 0 <= k < |ps[j + 1..]| && ps[j + 1..][k].key != name;
      assert ps[i + 1..][j - i + k] == ps[j + 1..][k];
    }
    if HasOther(ps[i + 1..], name) {
      assert HitBetween(ps, name, i);
    }
  }

  lemma {:induction false} FirstHit(ps: seq<Param>, name: string) returns (i: nat)
    requires !NoHit(ps, name)
    ensures i < |ps| && NoHit(ps[..i], name) && !Unhit(ps[i].value, name)
    decreases |ps|
  {
    if !Unhit(ps[0].value, name) {
      i := 0;
    } else {
      var rest := ps[1..];
      i := FirstHit(rest, name);
      assert ps[..i + 1] == [ps[0]] + rest[..i];
      i := i + 1;
    }
  }

  lemma HitAgain(before: string, name: string, value: string)
    ensures !Unhit((before + "?") + (name + "=" + value), name)
  {
    var s, pat := (before + "?") + (name + "=" + value), "?" + name + "=";
    assert s[|before|..|before| + |pat|] == pat;
    IndexOfIsFirst(s, pat, 0, |before|);
  }

  lemma MergeIsTame(ps: seq<Param>, i: nat, name: string)
    requires Tame(ps, name) && i < |ps| && ps[i].key == name && !Unhit(ps[i].value, name)
    ensures Tame(Merge(ps, i, name), name)
  {
    var ms := Merge(ps, i, name);
    assert ps[i] in ps;
    if i + 1 < |ps| {
      assert ps[i + 1] in ps;
    }
    assert forall j :: 0 <= j < |ms| && j != i ==> ms[j] in ps;
    assert '&' !in ms[i].value;
  }

  lemma WantedBeside(a: seq<Param>, p: Param, b: seq<Param>, names: seq<string>)
    requires p.key in names
    ensures Wanted(a + [p] + b, names) == Wanted(a, names) + Wanted(b, names)
  {
    WantedConcat(a + [p], b, names);
    WantedConcat(a, [p], names);
    NoneWanted([p], names);
    assert Wanted(a, names) + [] == Wanted(a, names);
  }

  lemma WantedOfMerge(ps: seq<Param>, i: nat, name: string)
    requires i < |ps| && ps[i].key == name && !Unhit(ps[i].value, name)
    ensures Wanted(Merge(ps, i, name), [name]) == Wanted(ps[..i], [name]) + (if i + 1 < |ps| then Wanted(ps[i + 2..], [name]) else [])
    ensures Wanted(ps, [name]) == Wanted(ps[..i], [name]) + Wanted(ps[i + 1..], [name])
  {
    var merged, behind := Merge(ps, i, name)[i], if i + 1 < |ps| then ps[i + 2..] else [];
    InThree(ps, i);
    assert Merge(ps, i, name) == ps[..i] + [merged] + behind;
    WantedBeside(ps[..i], ps[i], ps[i + 1..], [name]);
    WantedBeside(ps[..i], merged, behind, [name]);
  }

  lemma LessIsShorter(a: seq<Param>, p: Param, b: seq<Param>)
    requires a != []
    ensures |Render("", a + b)| < |Render("", a + ([p] + b))|
  {
    if b == [] {
      var n := |a| - 1;
      assert a == a[..n] + [a[n]] && a + b == a && a + ([p] + b) == a + [p];
      LastOfQuery(a[..n], a[n]);
      LastOfQuery(a, p);
    } else {
      assert ([p] + b)[1..] == b;
      QuerySplit(a, b, false);
      QuerySplit(a, [p] + b, false);
    }
  }

  lemma LastHitIsHarmless(ps: seq<Param>, i: nat, name: string)
    requires Tame(ps, name) && i + 1 == |ps| && NoHit(ps[..i], name) && ps[i].key == name && !Unhit(ps[i].value, name)
    ensures Wanted(Merge(ps, i, name), [name]) == Wanted(ps, [name])
    ensures !LosesOne(ps, name) && !LosesOne(Merge(ps, i, name), name)
  {
    WantedOfMerge(ps, i, name);
    NothingBehind(ps, i, name);
    assert Merge(ps, i, name)[..i] == ps[..i];
    NothingBehind(Merge(ps, i, name), i, name);
  }

  lemma HitBeforeUnwanted(ps: seq<Param>, i: nat, name: string)
    requires i + 1 < |ps| && NoHit(ps[..i], name) && ps[i].key == name && !Unhit(ps[i].value, name)
    requires ps[0].key != name && ps[i + 1].key == name
    ensures Wanted(Merge(ps, i, name), [name]) == Wanted(ps, [name])
    ensures LosesOne(Merge(ps, i, name), name) <==> LosesOne(ps, name)
  {
    OneBehind(ps, i + 1, name);
    WantedOfMerge(ps, i, name);
    FirstHitDecides(ps, i, name);
    MergedIsHit(ps, i, name);
    MergeSides(ps, i, name);
    FirstHitDecides(Merge(ps, i, name), i, name);
  }

  lemma MergedIsHit(ps: seq<Param>, i: nat, name: string)
    requires i + 1 < |ps| && !Unhit(ps[i].value, name) && ps[i + 1].key == name
    ensures !Unhit(Merge(ps, i, name)[i].value, name)
  {
    MergeSides(ps, i, name);
    HitAgain(BeforeHit(ps[i].value, name), name, ps[i + 1].value);
  }

  lemma OneBehind(ps: seq<Param>, i: nat, name: string)
    requires i < |ps| && ps[i].key == name
    ensures Wanted(ps[i..], [name]) == Wanted(ps[i + 1..], [name])
    ensures HasOther(ps[i..], name) <==> HasOther(ps[i + 1..], name)
  {
    var rest := ps[i..];
    assert rest[0] == ps[i] && rest[1..] == ps[i + 1..];
    assert rest == [ps[i]] + ps[i + 1..];
    OtherBehind(ps[i], ps[i + 1..], name);
  }

  lemma MergeSides(ps: seq<Param>, i: nat, name: string)
    requires i + 1 < |ps| && !Unhit(ps[i].value, name)
    ensures Merge(ps, i, name)[..i] == ps[..i] && Merge(ps, i, name)[i + 1..] == ps[i + 2..]
    ensures Merge(ps, i, name)[i].value == (BeforeHit(ps[i].value, name) + "?") + Show(ps[i + 1])
    ensures Merge(ps, i, name)[0].key == ps[0].key
  {
  }

  lemma HitBeforeWanted(ps: seq<Param>, i: nat, name: string)
    requires i + 1 < |ps| && NoHit(ps[..i], name) && ps[i].key == name && !Unhit(ps[i].value, name)
    requires ps[0].key != name && ps[i + 1].key != name
    ensures FewerWanted(ps, Merge(ps, i, name), name) && LosesOne(ps, name)
  {
    var front, behind := ps[..i], ps[i + 1..];
    WantedOfMerge(ps, i, name);
    FirstHitDecides(ps, i, name);
    assert behind[0] == ps[i + 1] && behind[1..] == ps[i + 2..] && front[0] == ps[0];
    LessIsShorter(Wanted(front, [name]), ps[i + 1], Wanted(ps[i + 2..], [name]));
  }

  /** A hit takes the parameter behind it along: harmless if that has the name, too, or there is none. */
  lemma MergeSteps(ps: seq<Param>, i: nat, name: string)
    requires Tame(ps, name) && i < |ps| && NoHit(ps[..i], name) && !Unhit(ps[i].value, name) && ps[0].key != name
    ensures Stepped(ps, Merge(ps, i, name), name)
  {
    assert ps[i] in ps;
    MergeIsTame(ps, i, name);
    if i + 1 == |ps| {
      LastHitIsHarmless(ps, i, name);
    } else if ps[i + 1].key == name {
      HitBeforeUnwanted(ps, i, name);
    } else {
      HitBeforeWanted(ps, i, name);
    }
  }

  lemma NothingBehind(ps: seq<Param>, i: nat, name: string)
    requires i + 1 == |ps| && NoHit(ps[..i], name)
    ensures !LosesOne(ps, name)
  {
    forall j: nat | j < |ps| ensures !HitBetween(ps, name, j) {
      if j < i {
        assert ps[..i][j] == ps[j] && ps[j] in ps[..i];
      }
    }
  }

  /** Shortening the last value changes neither what is wanted nor the danger. */
  lemma ShortenSteps(ps: seq<Param>, name: string)
    requires Tame(ps, name)
    ensures Tame(Shorten(ps), name) && Wanted(Shorten(ps), [name]) == Wanted(ps, [name])
    ensures LosesOne(Shorten(ps), name) <==> LosesOne(ps, name)
  {
    var short, n := Shorten(ps), |ps| - 1;
    ShortenIsWanted(ps, [name]);
    ShortenKeeps(ps, name);
    assert forall j :: 0 <= j < n ==> short[j] == ps[j] && ps[j] in ps;
    forall j: nat | j < |ps| ensures HitBetween(short, name, j) <==> HitBetween(ps, name, j) {
      ShortenAt(ps, short, name, j);
    }
  }

  lemma ShortenAt(ps: seq<Param>, short: seq<Param>, name: string, j: nat)
    requires j < |ps| == |short| && short == Shorten(ps)
    ensures HitBetween(short, name, j) <==> HitBetween(ps, name, j)
  {
    assert forall k :: 0 <= k < |ps| ==> short[k].key == ps[k].key;
    SameKeys(short[..j], ps[..j], name);
    SameKeys(short[j + 1..], ps[j + 1..], name);
  }

  lemma SameKeys(a: seq<Param>, b: seq<Param>, name: string)
    requires |a| == |b| && forall k :: 0 <= k < |a| ==> a[k].key == b[k].key
    ensures HasOther(a, name) <==> HasOther(b, name)
  {
  }

  lemma FirstStarts(base: string, ps: seq<Param>, open: bool, name: string)
    requires Plain(base) && WellFormed(ps) && PlainName(name) && ps != [] && ps[0].key == name
    ensures StartOf(Url(base, ps, open), name) == |base| + 1
  {
    var pat, q := "?" + name + "=", Query(ps, open);
    QueryStarts(ps, open, name);
    assert pat == ['?'] + (name + "=");
    MatchesCons('?', q, name + "=");
    SkipPrefix(base, "?" + q, pat);
    assert Url(base, ps, open) == base + ("?" + q);
  }

  lemma FirstIsFound(base: string, ps: seq<Param>, open: bool, name: string)
    requires Plain(base) && WellFormed(ps) && PlainName(name) && ps != [] && ps[0].key == name
    ensures StartOf(Url(base, ps, open), name) == |base| + 1
    ensures Cut(Url(base, ps, open), name) == Url(base, ps[1..], open || |ps| == 1)
  {
    FirstStarts(base, ps, open, name);
    NoneInFront(ps);
    CutWhereFound(base, ps, 0, open, name);
  }

  lemma NoneInFront(ps: seq<Param>)
    requires ps != []
    ensures Query(ps[..0], true) == "" && ps[..0] + ps[1..] == ps[1..]
  {
  }

  /** One cut of one name, with any hits. */
  lemma CutSteps(base: string, ps: seq<Param>, open: bool, name: string) returns (rest: seq<Param>, open': bool)
    requires Plain(base) && PlainName(name) && Tame(ps, name) && AnyUnwanted(ps, [name])
    ensures StartOf(Url(base, ps, open), name) != -1 && Cut(Url(base, ps, open), name) == Url(base, rest, open')
    ensures Stepped(ps, rest, name)
  {
    if ps[0].key == name {
      rest, open' := ps[1..], open || |ps| == 1;
      FirstIsFound(base, ps, open, name);
      FirstDoesNoHarm(ps, name);
    } else if !NoHit(ps, name) {
      var i := FirstHit(ps, name);
      rest, open' := Merge(ps, i, name), open && i + 1 < |ps|;
      CutIsMerge(base, ps, i, open, name);
      MergeSteps(ps, i, name);
    } else {
      rest := WithoutFirst(ps, name);
      StartOfFirst(base, ps, open, name);
      open' := CutIsWithoutFirst(base, ps, open, name);
      WithoutFirstIsPart(ps, name);
      WithoutFirstIsWanted(ps, name, [name]);
      NoHitNoLoss(ps, name);
      NoHitNoLoss(rest, name);
    }
  }

  lemma OneName(url: string, name: string)
    ensures CutAll(url, [name]) == Cut(url, name) && (CutsNothing(url, [name]) <==> StartOf(url, name) == -1)
  {
    assert [name][1..] == [];
  }

  /** A whole pass with one name. */
  lemma OneNamePass(base: string, ps: seq<Param>, open: bool, name: string) returns (rest: seq<Param>)
    requires Plain(base) && PlainName(name) && Tame(ps, name) && AnyUnwanted(ps, [name])
    ensures Stepped(ps, rest, name)
    ensures Cleaned(Url(base, ps, open), [name]) == Cleaned(Render(base, rest), [name])
    ensures |Render(base, rest)| < |Url(base, ps, open)|
  {
    var url := Url(base, ps, open);
    var cut, open' := CutSteps(base, ps, open, name);
    OneName(url, name);
    CutAllShrinks(url, [name]);
    UrlHasQuestionMark(base, ps, open);
    TrimCloses(base, cut, open');
    ShortenSteps(cut, name);
    rest := if open' then cut else Shorten(cut);
  }

  lemma RenderIsLonger(base: string, ps: seq<Param>)
    ensures |Render(base, ps)| == |base| + |Render("", ps)|
  {
  }

  lemma NoneToCut(base: string, ps: seq<Param>, open: bool, name: string)
    requires Plain(base) && PlainName(name) && Tame(ps, name) && !AnyUnwanted(ps, [name])
    ensures Cleaned(Url(base, ps, open), [name]) == Url(base, ps, open) && Wanted(ps, [name]) == ps
    ensures Cleaned(Render(base, ps), [name]) == Render(base, ps) && NoHit(ps, name)
  {
    NothingUnwanted(base, ps, open, [name]);
    NothingUnwanted(base, ps, false, [name]);
    AllWanted(ps, [name]);
    RenderedQuestionMark(base, ps);
  }

  lemma {:induction false} OneNameIsNoLonger(base: string, ps: seq<Param>, name: string)
    requires Plain(base) && PlainName(name) && Tame(ps, name)
    ensures |Cleaned(Render(base, ps), [name])| <= |Render(base, Wanted(ps, [name]))|
    decreases |Render(base, ps)|
  {
    if AnyUnwanted(ps, [name]) {
      var rest := OneNamePass(base, ps, false, name);
      OneNameIsNoLonger(base, rest, name);
      RenderIsLonger(base, Wanted(rest, [name]));
      RenderIsLonger(base, Wanted(ps, [name]));
    } else {
      NoneToCut(base, ps, false, name);
    }
  }

  /** With the wanted values safe: something is lost exactly if a hit value stands between two wanted parameters. */
  lemma {:induction false} OneNameKeptIff(base: string, ps: seq<Param>, open: bool, name: string)
    requires Plain(base) && PlainName(name) && Tame(ps, name)
    ensures Cleaned(Url(base, ps, open), [name]) == Filtered(base, ps, open, [name]) <==> !LosesOne(ps, name)
    decreases |Url(base, ps, open)|
  {
    if AnyUnwanted(ps, [name]) {
      var rest := OneNamePass(base, ps, open, name);
      if rest == [] {
        RenderedQuestionMark(base, rest);
        NoHitNoLoss(rest, name);
      } else if Wanted(rest, [name]) == Wanted(ps, [name]) {
        OneNameKeptIff(base, rest, false, name);
        FilteredIsWanted(base, rest, [name]);
      } else {
        OneNameIsNoLonger(base, rest, name);
        RenderIsLonger(base, Wanted(rest, [name]));
        RenderIsLonger(base, Wanted(ps, [name]));
      }
    } else {
      NoneToCut(base, ps, open, name);
      NoHitNoLoss(ps, name);
    }
  }

  /**
   * One name, and any hits: the string surgery is the filter exactly if no wanted value is hit,
   * and no hit value of that name stands between two wanted parameters.
   */
  lemma OneNameFilterIff(base: string, ps: seq<Param>, open: bool, name: string)
    requires Plain(base) && WellFormed(ps) && PlainName(name) && WantedEnded(ps, [name])
    ensures Cleaned(Url(base, ps, open), [name]) == Filtered(base, ps, open, [name])
      <==> !LosesOne(ps, name) && forall p :: p in ps && p.key != name ==> Unhit(p.value, name)
  {
    if p :| p in ps && p.key != name && !Unhit(p.value, name) {
      HitBreaksFilter(base, ps, open, [name], p, name);
    } else {
      OneNameKeptIff(base, ps, open, name);
    }
  }

  /** One such list: `y=2` is lost. */
  lemma HitInUnwantedValue()
    ensures var x, lt, y := Param("x", "1"), Param("lt", "a?lt=1"), Param("y", "2");
      var ps := [x] + [lt] + [y];
      Wanted(ps, ["lt"]) == [x] + [y] && Cleaned(Render("b", ps), ["lt"]) != Render("b", [x] + [y])
  {
    assert "a?lt=1" == ("a" + "?") + ("lt" + "=" + "1");
    HitAgain("a", "lt", "1");
    BetweenIsLost("b", Param("x", "1"), Param("lt", "a?lt=1"), Param("y", "2"), "lt");
  }

  lemma BetweenIsLost(base: string, x: Param, u: Param, y: Param, name: string)
    requires Plain(base) && WellFormed([x] + [u] + [y]) && PlainName(name) && Ended(x.value) && Ended(y.value)
    requires x.key != name && u.key == name && y.key != name && !Unhit(u.value, name)
    ensures var ps := [x] + [u] + [y];
      Wanted(ps, [name]) == [x] + [y] && Cleaned(Render(base, ps), [name]) != Render(base, [x] + [y])
  {
    var ps := [x] + [u] + [y];
    assert ps[..1] == [x] && ps[2..] == [y] && [x][0].key != name && [y][0].key != name;
    assert HitBetween(ps, name, 1);
    WantedBeside([x], u, [y], [name]);
    AllWanted([x], [name]);
    AllWanted([y], [name]);
    OneNameFilterIff(base, ps, false, name);
    FilteredIsWanted(base, ps, [name]);
  }
}
