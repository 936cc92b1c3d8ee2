/** The two functions of Python's urllib.parse that bsc_fmt_url calls, urlsplit
    and urlunsplit, as CPython 3.12 defines them for a str URL, the default
    scheme '' and fragments allowed. A component urlsplit does not find is the
    empty string, as in Python. */
module UrlParse {
  import opened Wrappers
  import opened Text

  /** The five fields of urlsplit's result. */
  datatype SplitResult = SplitResult(scheme: string, netloc: string, path: string,
                                     query: string, fragment: string)

  /** The ValueError("Invalid IPv6 URL") urlsplit raises for a netloc that holds
      one kind of square bracket but not the other. */
  datatype UrlError = InvalidIPv6(netloc: string)

  // ---------------------------------------------------------------- spans

  /** No character of s is one of the characters in stops. */
  predicate Avoids(s: string, stops: string) {
    forall i :: 0 <= i < |s| ==> s[i] !in stops
  }

  /** Length of the longest prefix of s that avoids the characters in stops. */
  function Span(s: string, stops: string): (n: nat)
    ensures n <= |s|
    ensures forall i :: 0 <= i < n ==> s[i] !in stops
    ensures n == |s| || s[n] in stops
  {
    if s == [] || s[0] in stops then 0 else 1 + Span(s[1..], stops)
  }

  /** The span of a string that avoids the stops, followed by more text, runs on into that text. */
  lemma {:induction false} SpanPrefix(a: string, b: string, stops: string)
    requires Avoids(a, stops)
    ensures Span(a + b, stops) == |a| + Span(b, stops)
    decreases |a|
  {
    if a != [] {
      assert (a + b)[1..] == a[1..] + b;
      SpanPrefix(a[1..], b, stops);
    } else {
      assert a + b == b;
    }
  }

  /** Span of a string that avoids the stops followed by one that starts with a stop. */
  lemma {:induction false} SpanConcat(a: string, b: string, stops: string)
    requires Avoids(a, stops) && (b == [] || b[0] in stops)
    ensures Span(a + b, stops) == |a|
  {
    if a != [] {
      assert (a + b)[1..] == a[1..] + b;
      SpanConcat(a[1..], b, stops);
    } else {
      assert a + b == b;
    }
  }

  /** A stop inside a decides the span of a + b. */
  lemma {:induction false} SpanAppend(a: string, b: string, stops: string)
    requires Span(a, stops) < |a|
    ensures Span(a + b, stops) == Span(a, stops)
  {
    if a[0] !in stops {
      assert (a + b)[1..] == a[1..] + b;
      SpanAppend(a[1..], b, stops);
    }
  }

  /** Where the text ends at a stop (or at its end), the span of the whole
      equals the span of the text before it. */
  lemma SpanUpTo(a: string, b: string, stops: string)
    requires b == [] || b[0] in stops
    ensures Span(a + b, stops) == Span(a, stops)
  {
    if Span(a, stops) < |a| {
      SpanAppend(a, b, stops);
    } else {
      SpanConcat(a, b, stops);
    }
  }

  /** The span of '?' within the text before the first '#' is the span of both. */
  lemma {:induction false} SpanTwoStops(s: string)
    ensures Span(s[..Span(s, "#")], "?") == Span(s, "?#")
    decreases |s|
  {
    if s != [] && s[0] != '#' && s[0] != '?' {
      var f := Span(s, "#");
      assert s[..f][1..] == s[1..][..Span(s[1..], "#")];
      SpanTwoStops(s[1..]);
    }
  }

  // ---------------------------------------------------------------- clean-up

  /** The characters urlsplit strips from the front of the URL: the C0 controls and space. */
  predicate IsC0OrSpace(c: char) {
    c <= ' '
  }

  /** url.lstrip of the C0 controls and space. */
  function LStripC0(s: string): (r: string)
    ensures |r| <= |s| && r == s[|s| - |r|..]
    ensures r == [] || !IsC0OrSpace(r[0])
    decreases |s|
  {
    if s != [] && IsC0OrSpace(s[0]) then LStripC0(s[1..]) else s
  }

  /** No tab, carriage return or line feed in s. */
  predicate NoBreaks(s: string) {
    '\t' !in s && '\r' !in s && '\n' !in s
  }

  /** urlsplit's clean-up: the front is stripped of C0 controls and spaces,
      then every tab, carriage return and line feed is deleted, in that order. */
  function Sanitize(url: string): (r: string)
    ensures |r| <= |url|
    ensures NoBreaks(r)
    ensures forall c :: c in r ==> c in url
  {
    var front := LStripC0(url);
    assert forall c :: c in front ==> c in url;
    Replace(Replace(Replace(front, "\t", ""), "\r", ""), "\n", "")
  }

  /** A URL that urlsplit's clean-up leaves as it is. */
  predicate Clean(u: string) {
    (u == [] || !IsC0OrSpace(u[0])) && NoBreaks(u)
  }

  /** The clean-up changes nothing in a clean URL. */
  lemma CleanSanitize(u: string)
    requires Clean(u)
    ensures Sanitize(u) == u
  {
    ReplaceAbsent(u, "\t", "");
    ReplaceAbsent(u, "\r", "");
    ReplaceAbsent(u, "\n", "");
  }

  // ---------------------------------------------------------------- scheme

  predicate IsAsciiLetter(c: char) {
    'a' <= c <= 'z' || 'A' <= c <= 'Z'
  }

  /** The characters of urllib.parse's scheme_chars. */
  predicate IsSchemeChar(c: char) {
    IsAsciiLetter(c) || '0' <= c <= '9' || c == '+' || c == '-' || c == '.'
  }

  /** What urlsplit accepts as a scheme: an ASCII letter, then scheme characters. */
  predicate IsScheme(s: string) {
    s != [] && IsAsciiLetter(s[0]) && forall i :: 0 <= i < |s| ==> IsSchemeChar(s[i])
  }

  /** No upper-case ASCII letter in s. */
  predicate IsLower(s: string) {
    forall i :: 0 <= i < |s| ==> !('A' <= s[i] <= 'Z')
  }

  function LowerChar(c: char): char {
    if 'A' <= c <= 'Z' then (c as int + 32) as char else c
  }

  /** str.lower on the ASCII text a scheme is made of. */
  function Lower(s: string): (r: string)
    ensures |r| == |s| && IsLower(r)
    ensures IsScheme(s) ==> IsScheme(r)
    ensures IsLower(s) ==> r == s
  {
    seq(|s|, i requires 0 <= i < |s| => LowerChar(s[i]))
  }

  /** urlsplit's scheme: the text before the first ':' when it is a scheme,
      lower-cased, with the rest after that ':'; otherwise no scheme and all
      of the text. */
  function SplitScheme(u: string): (r: (string, string))
    ensures r.0 == [] ==> r.1 == u
    ensures r.0 != [] ==> IsScheme(r.0) && IsLower(r.0) && |r.0| + 1 + |r.1| == |u|
                          && r.1 == u[|r.0| + 1..]
  {
    var i := Span(u, ":");
    if i < |u| && IsScheme(u[..i]) then (Lower(u[..i]), u[i + 1..]) else ([], u)
  }

  /** A scheme and its ':' are read back whatever follows. */
  lemma SchemeRead(s: string, rest: string)
    requires IsScheme(s)
    ensures SplitScheme(s + ":" + rest) == (Lower(s), rest)
  {
    var u := s + ":" + rest;
    assert Avoids(s, ":");
    assert u == s + (":" + rest);
    SpanConcat(s, ":" + rest, ":");
    assert u[..|s|] == s;
    assert u[|s| + 1..] == rest;
  }

  /** Text that starts with '/' (or with '?' or '#') has no scheme. */
  lemma NoSchemeBefore(u: string)
    requires u != [] && u[0] in "/?#"
    ensures SplitScheme(u) == ([], u)
  {
  }

  // ---------------------------------------------------------------- netloc

  /** s starts with "//". */
  predicate DoubleSlash(s: string) {
    |s| >= 2 && s[0] == '/' && s[1] == '/'
  }

  /** urlsplit's netloc: after a leading "//", up to the first '/', '?' or '#'. */
  function SplitNetloc(s: string): (r: (string, string))
    ensures Avoids(r.0, "/?#")
    ensures |r.0| + |r.1| <= |s|
    ensures DoubleSlash(s) ==> s == "//" + r.0 + r.1 && (r.1 == [] || r.1[0] in "/?#")
    ensures !DoubleSlash(s) ==> r == ([], s)
  {
    if DoubleSlash(s) then
      var m := Span(s[2..], "/?#");
      NetlocCut(s, m);
      (s[2..2 + m], s[2 + m..])
    else ([], s)
  }

  /** The cut SplitNetloc makes after "//" and the span of non-stops. */
  lemma NetlocCut(s: string, m: nat)
    requires DoubleSlash(s) && m == Span(s[2..], "/?#")
    ensures s == "//" + s[2..2 + m] + s[2 + m..]
    ensures Avoids(s[2..2 + m], "/?#")
    ensures s[2 + m..] == [] || s[2 + m..][0] in "/?#"
  {
    assert s == "//" + s[2..2 + m] + s[2 + m..];
    assert forall i :: 0 <= i < m ==> s[2..2 + m][i] == s[2..][i];
    assert s[2 + m..] == [] || s[2 + m..][0] == s[2..][m];
  }

  /** The netloc check urlsplit makes: '[' and ']' both present or both absent. */
  predicate BracketsBalanced(netloc: string) {
    ('[' in netloc) == (']' in netloc)
  }

  /** A netloc free of '/', '?' and '#' is read back from "//", the netloc and a
      rest that is empty or starts with one of them. */
  lemma NetlocRead(n: string, rest: string)
    requires Avoids(n, "/?#") && (rest == [] || rest[0] in "/?#")
    ensures SplitNetloc("//" + n + rest) == (n, rest)
  {
    var s := "//" + n + rest;
    assert s[2..] == n + rest;
    SpanConcat(n, rest, "/?#");
    assert s[2..2 + |n|] == n && s[2 + |n|..] == rest;
  }

  // ---------------------------------------------------------------- path, query, fragment

  /** urlsplit splits off the fragment at the first '#', then the query at the
      first '?' of what is left; what precedes them is the path. */
  function SplitTail(s: string): (r: (string, string, string))
    ensures r.0 == s[..Span(s, "?#")]
    ensures Avoids(r.0, "?#") && Avoids(r.1, "#")
    ensures |r.0| <= |s|
  {
    var f := Span(s, "#");
    var beforeFragment := s[..f];
    var fragment := if f < |s| then s[f + 1..] else [];
    var q := Span(beforeFragment, "?");
    var query := if q < |beforeFragment| then beforeFragment[q + 1..] else [];
    SpanTwoStops(s);
    (beforeFragment[..q], query, fragment)
  }

  /** The path, query and fragment are read back from the path followed by
      '?' and the query when it is non-empty, and '#' and the fragment when it
      is non-empty. */
  lemma TailRead(path: string, query: string, fragment: string)
    requires Avoids(path, "?#") && Avoids(query, "#")
    ensures SplitTail(path + QueryText(query) + FragmentText(fragment)) == (path, query, fragment)
  {
    var pq := path + QueryText(query);
    QueryCut(path, query);
    FragmentCut(pq, fragment);
    TailAt(pq + FragmentText(fragment), pq);
  }

  /** SplitTail where the text before the first '#' is known. */
  lemma TailAt(s: string, bf: string)
    requires Span(s, "#") == |bf| && s[..|bf|] == bf
    ensures var q := Span(bf, "?");
      SplitTail(s) == (bf[..q], if q < |bf| then bf[q + 1..] else [],
                       if |bf| < |s| then s[|bf| + 1..] else [])
  {
  }

  /** The '#' written before a non-empty fragment is the first one. */
  lemma FragmentCut(pq: string, fragment: string)
    requires Avoids(pq, "#")
    ensures var s := pq + FragmentText(fragment);
      && Span(s, "#") == |pq| && s[..|pq|] == pq
      && (fragment == [] <==> |pq| == |s|)
      && (fragment != [] ==> s[|pq| + 1..] == fragment)
  {
    var f := FragmentText(fragment);
    SpanConcat(pq, f, "#");
    ConcatSlicesAt(pq, f, 0, |pq|);
    assert (pq + f)[..|pq|] == pq;
  }

  /** The '?' written before a non-empty query is the first one, and no '#' is written. */
  lemma QueryCut(path: string, query: string)
    requires Avoids(path, "?#") && Avoids(query, "#")
    ensures var pq := path + QueryText(query);
      && Avoids(pq, "#") && Span(pq, "?") == |path| && pq[..|path|] == path
      && (query == [] <==> |path| == |pq|)
      && (query != [] ==> pq[|path| + 1..] == query)
  {
    if query == [] {
      assert path + QueryText(query) == path;
      SpanConcat(path, [], "?");
      AvoidsChars(path, path, "#");
    } else {
      QueryCutSome(path, query);
    }
  }

  lemma QueryCutSome(path: string, query: string)
    requires Avoids(path, "?#") && Avoids(query, "#") && query != []
    ensures var pq := path + ("?" + query);
      && Avoids(pq, "#") && Span(pq, "?") == |path| && pq[..|path|] == path
      && pq[|path| + 1..] == query
  {
    var q := "?" + query;
    ConcatSlicesAt(path, q, |path|, |path|);
    assert q[1..] == query;
    SpanConcat(path, q, "?");
    AvoidsJoin("?", query, "#");
    AvoidsJoin(path, q, "#");
  }

  /** Two texts that avoid some characters avoid them together. */
  lemma AvoidsJoin(a: string, b: string, stops: string)
    requires Avoids(a, stops) && Avoids(b, stops)
    ensures Avoids(a + b, stops)
  {
    forall i | 0 <= i < |a + b|
      ensures (a + b)[i] !in stops
    {
      if i >= |a| {
        assert (a + b)[i] == b[i - |a|];
      }
    }
  }

  function QueryText(query: string): string {
    if query != [] then "?" + query else []
  }

  function FragmentText(fragment: string): string {
    if fragment != [] then "#" + fragment else []
  }

  // ---------------------------------------------------------------- urlsplit

  /** What urlsplit does after the clean-up: scheme, netloc and its bracket
      check, then fragment, query and path. */
  function SplitClean(c: string): (r: Result<SplitResult, UrlError>)
    ensures r.Err? <==> !BracketsBalanced(SplitNetloc(SplitScheme(c).1).0)
    ensures r.Err? ==> r.error == InvalidIPv6(SplitNetloc(SplitScheme(c).1).0)
    ensures r.Ok? ==> SplitShape(r.value)
  {
    var (scheme, rest) := SplitScheme(c);
    var (netloc, rest2) := SplitNetloc(rest);
    if !BracketsBalanced(netloc) then Err(InvalidIPv6(netloc))
    else
      var (path, query, fragment) := SplitTail(rest2);
      Ok(SplitResult(scheme, netloc, path, query, fragment))
  }

  /** What every result of urlsplit satisfies: a lower-case scheme or none; a
      balanced netloc free of '/', '?' and '#'; a path free of '?' and '#' that
      is empty or starts with '/' after a netloc; a query free of '#'. */
  predicate SplitShape(p: SplitResult) {
    && (p.scheme == [] || (IsScheme(p.scheme) && IsLower(p.scheme)))
    && Avoids(p.netloc, "/?#") && BracketsBalanced(p.netloc)
    && Avoids(p.path, "?#") && Avoids(p.query, "#")
    && (p.netloc != [] ==> p.path == [] || p.path[0] == '/')
  }

  /** urlsplit(url). */
  function UrlSplit(url: string): Result<SplitResult, UrlError> {
    SplitClean(Sanitize(url))
  }

  /** The netloc urlsplit reads from url, before its bracket check. */
  function Netloc(url: string): string {
    SplitNetloc(SplitScheme(Sanitize(url)).1).0
  }

  /** urlsplit fails exactly when the netloc it reads has one kind of bracket
      only; otherwise its result has the shape above and that netloc. */
  lemma UrlSplitFails(url: string)
    ensures UrlSplit(url).Err? <==> !BracketsBalanced(Netloc(url))
    ensures UrlSplit(url).Err? ==> UrlSplit(url).error == InvalidIPv6(Netloc(url))
    ensures UrlSplit(url).Ok? ==> SplitShape(UrlSplit(url).value) && UrlSplit(url).value.netloc == Netloc(url)
  {
  }

  // ---------------------------------------------------------------- urlunsplit

  /** urllib.parse.uses_netloc: the schemes urlunsplit writes "//" for. */
  const UsesNetloc: set<string> :=
    {"", "ftp", "http", "gopher", "nntp", "telnet", "imap", "wais", "file", "mms",
     "https", "shttp", "snews", "prospero", "rtsp", "rtsps", "rtspu", "rsync", "svn",
     "svn+ssh", "sftp", "nfs", "git", "git+ssh", "ws", "wss", "itms-services"}

  /** The path urlunsplit writes after a netloc: with a '/' in front unless it is
      empty or already starts with one. */
  function Rooted(path: string): (r: string)
    ensures r == [] || r[0] == '/'
    ensures |r| <= |path| + 1
  {
    if path != [] && path[0] != '/' then "/" + path else path
  }

  /** Whether urlunsplit writes "//" and the netloc before the path: when the
      netloc is non-empty, or when the scheme uses a netloc and the path does
      not already start with "//". */
  predicate WritesNetloc(p: SplitResult) {
    p.netloc != [] || (p.scheme != [] && p.scheme in UsesNetloc && !DoubleSlash(p.path))
  }

  /** The text urlunsplit builds from scheme, netloc and path. */
  function HeadText(p: SplitResult): (u: string)
    ensures |u| <= (if p.scheme != [] then |p.scheme| + 1 else 0) + 3 + |p.netloc| + |p.path|
    ensures !WritesNetloc(p) && p.scheme == [] ==> u == p.path
  {
    var url := if WritesNetloc(p) then "//" + p.netloc + Rooted(p.path) else p.path;
    if p.scheme != [] then p.scheme + ":" + url else url
  }

  /** urlunsplit(p): the scheme and ':', then "//", the netloc and the rooted
      path when the netloc is written, else the path alone, then '?' and the
      query and '#' and the fragment, each only when non-empty. */
  function Unsplit(p: SplitResult): (u: string)
    ensures |u| <= |p.scheme| + |p.netloc| + |p.path| + |p.query| + |p.fragment| + 6
  {
    HeadText(p) + QueryText(p.query) + FragmentText(p.fragment)
  }

  // ---------------------------------------------------------------- what the text before '?' and '#' decides

  /** The components bsc_fmt_url hands back to urlunsplit: scheme, netloc and
      path, with the query and fragment emptied. */
  function Kept(p: SplitResult): (k: SplitResult)
    ensures k.query == [] && k.fragment == []
    ensures Unsplit(k) == HeadText(p)
  {
    SplitResult(p.scheme, p.netloc, p.path, [], [])
  }

  /** The text of s before its first '?' or '#'. */
  function Head(s: string): (h: string)
    ensures |h| <= |s| && Avoids(h, "?#") && h == s[..|h|]
    ensures |h| < |s| ==> s[|h|] in "?#"
  {
    s[..Span(s, "?#")]
  }

  /** A suffix of text that avoids some characters avoids them too. */
  lemma AvoidsSuffix(s: string, k: nat, stops: string)
    requires Avoids(s, stops) && k <= |s|
    ensures Avoids(s[k..], stops)
  {
    assert forall i :: 0 <= i < |s| - k ==> s[k..][i] == s[k + i];
  }

  /** A ':' in h decides the scheme read from h + rest. */
  lemma SchemeHeadColon(h: string, rest: string)
    requires Span(h, ":") < |h|
    ensures SplitScheme(h + rest) == (SplitScheme(h).0, SplitScheme(h).1 + rest)
  {
    var i := Span(h, ":");
    if IsScheme(h[..i]) {
      SchemeColonYes(h, rest, i);
      SchemeAt(h, i, h[..i]);
    } else {
      SchemeColonNo(h, rest, i);
      NoSchemeBeforeColon(h, i);
    }
  }

  /** A scheme before the first ':' of h is read from h + rest, followed by the rest of both. */
  lemma SchemeColonYes(h: string, rest: string, i: nat)
    requires i == Span(h, ":") < |h| && IsScheme(h[..i])
    ensures SplitScheme(h + rest) == (Lower(h[..i]), h[i + 1..] + rest)
  {
    SpanAppend(h, rest, ":");
    ConcatSlices(h, rest, i);
    SchemeAt(h + rest, i, h[..i]);
  }

  /** Cutting h + rest at a position inside h cuts h there. */
  lemma ConcatSlices(h: string, rest: string, i: nat)
    requires i < |h|
    ensures (h + rest)[..i] == h[..i] && (h + rest)[i + 1..] == h[i + 1..] + rest
  {
  }

  /** Where the first ':' of u follows a scheme x, urlsplit reads x, lower-cased. */
  lemma SchemeAt(u: string, i: nat, x: string)
    requires i == Span(u, ":") < |u| && u[..i] == x && IsScheme(x)
    ensures SplitScheme(u) == (Lower(x), u[i + 1..])
  {
  }

  /** Text before the first ':' of h that is no scheme leaves h + rest without one. */
  lemma SchemeColonNo(h: string, rest: string, i: nat)
    requires i == Span(h, ":") < |h| && !IsScheme(h[..i])
    ensures SplitScheme(h + rest) == ([], h + rest)
  {
    SpanAppend(h, rest, ":");
    ConcatSlices(h, rest, i);
    NoSchemeBeforeColon(h + rest, i);
  }

  /** Text before the first ':' that is no scheme leaves the text without one. */
  lemma NoSchemeBeforeColon(u: string, i: nat)
    requires i == Span(u, ":") < |u| && !IsScheme(u[..i])
    ensures SplitScheme(u) == ([], u)
  {
  }

  /** With no ':' in h, a '?' or '#' after it leaves no scheme to read. */
  lemma SchemeHeadNone(h: string, rest: string)
    requires Avoids(h, ":") && rest != [] && (rest[0] == '?' || rest[0] == '#')
    ensures SplitScheme(h + rest) == ([], h + rest)
  {
    var u := h + rest;
    SpanPrefix(h, rest, ":");
    SpanFirst(rest, ":");
    assert u[|h|] == rest[0];
    NoSchemeAt(u, |h|);
  }

  /** A string that starts with a character other than a stop spans at least one. */
  lemma SpanFirst(s: string, stops: string)
    requires s != [] && s[0] !in stops
    ensures Span(s, stops) > 0
  {
  }

  /** A character that is not a scheme character before the first ':' leaves no scheme. */
  lemma NoSchemeAt(u: string, k: nat)
    requires k < Span(u, ":") && !IsSchemeChar(u[k])
    ensures SplitScheme(u) == ([], u)
  {
    var j := Span(u, ":");
    assert u[..j][k] == u[k];
  }

  /** What follows the scheme is free of '?' and '#' when the text is. */
  lemma SchemeRestAvoids(h: string)
    requires Avoids(h, "?#")
    ensures Avoids(SplitScheme(h).1, "?#")
  {
    var r1 := SplitScheme(h).1;
    assert r1 == h[|h| - |r1|..];
    AvoidsSuffix(h, |h| - |r1|, "?#");
  }

  /** What follows the netloc is free of '?' and '#' when the text is. */
  lemma NetlocRestAvoids(h: string)
    requires Avoids(h, "?#")
    ensures Avoids(SplitNetloc(h).1, "?#")
  {
    var r2 := SplitNetloc(h).1;
    assert r2 == h[|h| - |r2|..];
    AvoidsSuffix(h, |h| - |r2|, "?#");
  }

  /** Text free of '?' and '#' has no query and no fragment. */
  lemma NoTail(x: string)
    requires Avoids(x, "?#")
    ensures SplitTail(x) == (x, [], [])
  {
    SpanConcat(x, [], "#");
    SpanConcat(x, [], "?");
    assert x + [] == x;
  }

  /** What follows the text before '?' or '#' does not change the scheme read. */
  lemma SchemeHead(h: string, rest: string)
    requires rest == [] || rest[0] in "?#"
    ensures SplitScheme(h + rest) == (SplitScheme(h).0, SplitScheme(h).1 + rest)
  {
    if Span(h, ":") < |h| {
      SchemeHeadColon(h, rest);
    } else if rest != [] {
      assert Avoids(h, ":");
      SchemeHeadNone(h, rest);
    } else {
      assert h + rest == h;
    }
  }

  /** What follows the text before '?' or '#' does not change the netloc read. */
  lemma NetlocHead(h: string, rest: string)
    requires Avoids(h, "?#") && (rest == [] || rest[0] in "?#")
    ensures SplitNetloc(h + rest) == (SplitNetloc(h).0, SplitNetloc(h).1 + rest)
  {
    var u := h + rest;
    if DoubleSlash(h) {
      NetlocHeadSlashed(h, rest);
    } else if rest == [] {
      assert u == h;
    } else {
      assert u[..|h|] == h && u[|h|] == rest[0];
    }
  }

  /** The netloc after "//" in h is read alike from h + rest. */
  lemma NetlocHeadSlashed(h: string, rest: string)
    requires DoubleSlash(h) && (rest == [] || rest[0] in "?#")
    ensures SplitNetloc(h + rest) == (SplitNetloc(h).0, SplitNetloc(h).1 + rest)
  {
    var m := Span(h[2..], "/?#");
    NetlocSlices(h, rest, m);
    assert SplitNetloc(h) == (h[2..2 + m], h[2 + m..]);
  }

  /** The slices of h + rest that SplitNetloc takes are those of h, with rest after the second. */
  lemma NetlocSlices(h: string, rest: string, m: nat)
    requires DoubleSlash(h) && (rest == [] || rest[0] in "?#") && m == Span(h[2..], "/?#")
    ensures Span((h + rest)[2..], "/?#") == m
    ensures (h + rest)[2..2 + m] == h[2..2 + m] && (h + rest)[2 + m..] == h[2 + m..] + rest
  {
    ConcatSlicesAt(h, rest, 2, 2 + m);
    SpanUpTo(h[2..], rest, "/?#");
  }

  /** Slices of h + rest that start inside h. */
  lemma ConcatSlicesAt(h: string, rest: string, lo: nat, hi: nat)
    requires lo <= hi <= |h|
    ensures (h + rest)[lo..] == h[lo..] + rest
    ensures (h + rest)[lo..hi] == h[lo..hi] && (h + rest)[hi..] == h[hi..] + rest
  {
  }

  /** The path read from the text before '?' or '#' and what follows it is that text. */
  lemma PathHead(x: string, rest: string)
    requires Avoids(x, "?#") && (rest == [] || rest[0] in "?#")
    ensures SplitTail(x + rest).0 == x && SplitTail(x).0 == x
  {
    SpanConcat(x, rest, "?#");
    assert (x + rest)[..|x|] == x;
    SpanConcat(x, [], "?#");
    assert x + [] == x;
  }

  /** urlsplit reads the scheme, netloc and path (and raises its bracket error)
      from the text before the first '?' or '#' alone. */
  lemma HeadDecides(c: string)
    ensures SplitClean(c).Ok? <==> SplitClean(Head(c)).Ok?
    ensures SplitClean(c).Ok? ==> Kept(SplitClean(c).value) == SplitClean(Head(c)).value
    ensures SplitClean(c).Err? ==> SplitClean(c) == SplitClean(Head(c))
  {
    var h := Head(c);
    var rest := c[|h|..];
    assert c == h + rest;
    SchemeHead(h, rest);
    var r1 := SplitScheme(h).1;
    SchemeRestAvoids(h);
    NetlocHead(r1, rest);
    var r2 := SplitNetloc(r1).1;
    NetlocRestAvoids(r1);
    PathHead(r2, rest);
    NoTail(r2);
  }

  /** Stripping the front of head + tail strips head alone when tail starts with '?' or '#'. */
  lemma {:induction false} LStripSplit(head: string, tail: string)
    requires tail == [] || tail[0] in "?#"
    ensures LStripC0(head + tail) == LStripC0(head) + tail
    decreases |head|
  {
    if head == [] {
      assert head + tail == tail;
    } else if IsC0OrSpace(head[0]) {
      assert (head + tail)[1..] == head[1..] + tail;
      LStripSplit(head[1..], tail);
    }
  }

  /** Deleting one character other than '?' and '#' works on head and tail apart. */
  lemma DeleteSplit(a: string, t: string, pat: string)
    requires |pat| == 1 && pat[0] != '?' && pat[0] != '#'
    requires t == [] || t[0] in "?#"
    ensures Replace(a + t, pat, "") == Replace(a, pat, "") + Replace(t, pat, "")
    ensures t == [] || (Replace(t, pat, "") != [] && Replace(t, pat, "")[0] == t[0])
  {
    if t == [] {
      assert a + t == a;
    } else {
      ReplaceSplit(a, t, pat, "");
      assert t == [t[0]] + t[1..];
      ReplaceSkip([t[0]], t[1..], pat, "");
    }
  }

  /** The clean-up of head + tail is the clean-up of head followed by text
      that is empty or starts with '?' or '#'. */
  lemma SanitizeSplit(head: string, tail: string)
    requires tail == [] || tail[0] in "?#"
    ensures exists t :: Sanitize(head + tail) == Sanitize(head) + t && (t == [] || t[0] in "?#")
  {
    LStripSplit(head, tail);
    var a := LStripC0(head);
    DeleteSplit(a, tail, "\t");
    var a1, t1 := Replace(a, "\t", ""), Replace(tail, "\t", "");
    DeleteSplit(a1, t1, "\r");
    var a2, t2 := Replace(a1, "\r", ""), Replace(t1, "\r", "");
    DeleteSplit(a2, t2, "\n");
    var t3 := Replace(t2, "\n", "");
    assert Sanitize(head + tail) == Sanitize(head) + t3;
  }

  /** urlsplit reads the same scheme, netloc and path, or raises the same
      error, whatever query and fragment follow the text before them. */
  lemma SplitIgnoresTail(head: string, tail: string)
    requires Avoids(head, "?#") && (tail == [] || tail[0] in "?#")
    ensures UrlSplit(head + tail).Ok? <==> UrlSplit(head).Ok?
    ensures UrlSplit(head + tail).Ok? ==> Kept(UrlSplit(head + tail).value) == Kept(UrlSplit(head).value)
    ensures UrlSplit(head + tail).Err? ==> UrlSplit(head + tail) == UrlSplit(head)
  {
    var c1, c2 := Sanitize(head + tail), Sanitize(head);
    SanitizedHead(head, tail);
    HeadDecides(c1);
    HeadDecides(c2);
  }

  /** The text before '?' or '#' of the cleaned-up URL is the cleaned-up text before them. */
  lemma SanitizedHead(head: string, tail: string)
    requires Avoids(head, "?#") && (tail == [] || tail[0] in "?#")
    ensures Head(Sanitize(head + tail)) == Sanitize(head) == Head(Sanitize(head))
  {
    var c1, c2 := Sanitize(head + tail), Sanitize(head);
    SanitizeSplit(head, tail);
    var t :| c1 == c2 + t && (t == [] || t[0] in "?#");
    AvoidsChars(c2, head, "?#");
    SpanConcat(c2, t, "?#");
    assert c1[..|c2|] == c2;
    SpanConcat(c2, [], "?#");
    assert c2 + [] == c2;
  }

  /** Text made of the characters of text that avoids some characters avoids them too. */
  lemma AvoidsChars(a: string, b: string, stops: string)
    requires forall c :: c in a ==> c in b
    requires Avoids(b, stops)
    ensures Avoids(a, stops)
  {
    forall i | 0 <= i < |a|
      ensures a[i] !in stops
    {
      assert a[i] in b;
    }
  }

  // ---------------------------------------------------------------- what bsc_fmt_url keeps

  /** The fields of a successful split, step by step. */
  lemma SplitCleanParts(c: string)
    requires SplitClean(c).Ok?
    ensures var p := SplitClean(c).value;
      var rest := SplitScheme(c).1;
      p.scheme == SplitScheme(c).0 && p.netloc == SplitNetloc(rest).0
      && p.path == SplitTail(SplitNetloc(rest).1).0
  {
  }

  /** What follows the scheme brings no line break into the text. */
  lemma SchemeRestChars(c: string)
    requires NoBreaks(c)
    ensures NoBreaks(SplitScheme(c).1)
  {
    var rest := SplitScheme(c).1;
    var k := |c| - |rest|;
    assert rest == c[k..];
    SliceNoBreaks(c, k, |c|);
  }

  /** A slice of text without line breaks has none. */
  lemma SliceNoBreaks(s: string, lo: nat, hi: nat)
    requires lo <= hi <= |s| && NoBreaks(s)
    ensures NoBreaks(s[lo..hi]) && (hi == |s| ==> NoBreaks(s[lo..]))
  {
    SliceChars(s, lo, hi);
    assert hi == |s| ==> s[lo..hi] == s[lo..];
  }

  /** Neither the netloc nor what follows it brings a line break into the text. */
  lemma NetlocChars(s: string)
    requires NoBreaks(s)
    ensures NoBreaks(SplitNetloc(s).0) && NoBreaks(SplitNetloc(s).1)
  {
    if DoubleSlash(s) {
      var m := Span(s[2..], "/?#");
      assert SplitNetloc(s) == (s[2..2 + m], s[2 + m..]);
      SliceNoBreaks(s, 2, 2 + m);
      SliceNoBreaks(s, 2 + m, |s|);
    }
  }

  /** The path brings no line break into the text. */
  lemma PathChars(s: string)
    requires NoBreaks(s)
    ensures NoBreaks(SplitTail(s).0)
  {
    SliceChars(s, 0, |SplitTail(s).0|);
  }

  /** The scheme, netloc and path urlsplit reads take up no more than the text
      they come from, and bring no line break into it. */
  lemma SplitPieces(c: string)
    requires SplitClean(c).Ok?
    ensures var p := SplitClean(c).value;
      && (if p.scheme != [] then |p.scheme| + 1 else 0) + |p.netloc| + |p.path| <= |c|
      && (NoBreaks(c) ==> NoBreaks(p.netloc) && NoBreaks(p.path))
  {
    SplitCleanParts(c);
    var rest := SplitScheme(c).1;
    if NoBreaks(c) {
      SchemeRestChars(c);
      NetlocChars(rest);
      PathChars(SplitNetloc(rest).1);
    }
  }

  lemma SchemeChars(s: string)
    requires IsScheme(s)
    ensures NoBreaks(s) && '?' !in s && '#' !in s
  {
  }

  /** urlunsplit's text from a scheme, a netloc and a path of urlsplit's shape
      holds no '?' or '#', and no line break when they hold none. */
  lemma HeadTextChars(p: SplitResult)
    requires SplitShape(p) && NoBreaks(p.netloc) && NoBreaks(p.path)
    ensures var h := HeadText(p); '?' !in h && '#' !in h && NoBreaks(h)
  {
    if p.scheme != [] {
      SchemeChars(p.scheme);
    }
    assert '?' !in p.netloc && '#' !in p.netloc;
    assert '?' !in p.path && '#' !in p.path;
  }

  /** What urlunsplit writes from the scheme, netloc and path urlsplit read holds
      no '?', '#' or line break, and is at most three characters longer than the
      URL: the "//" and the '/' it may insert. */
  lemma HeadTextFacts(url: string)
    requires UrlSplit(url).Ok?
    ensures var h := HeadText(UrlSplit(url).value);
      '?' !in h && '#' !in h && NoBreaks(h) && |h| <= |url| + 3
  {
    SplitPieces(Sanitize(url));
    HeadTextChars(UrlSplit(url).value);
  }

  // ---------------------------------------------------------------- link shapes

  /** A scheme, ':' and text without line breaks pass the clean-up unchanged. */
  lemma SchemeClean(s: string, rest: string)
    requires IsScheme(s) && NoBreaks(rest)
    ensures Sanitize(s + ":" + rest) == s + ":" + rest
  {
    SchemeChars(s);
    CleanSanitize(s + ":" + rest);
  }

  /** A scheme, "//", a netloc and a path that is empty or starts with '/': the
      netloc is read up to the path, and its brackets are checked. */
  lemma SplitWithNetloc(s: string, n: string, p: string)
    requires IsScheme(s) && Avoids(n, "/?#") && NoBreaks(n)
    requires (p == [] || p[0] == '/') && Avoids(p, "?#") && NoBreaks(p)
    ensures UrlSplit(s + "://" + n + p)
      == if BracketsBalanced(n) then Ok(SplitResult(Lower(s), n, p, [], []))
         else Err(InvalidIPv6(n))
  {
    var u := s + "://" + n + p;
    assert u == s + ":" + ("//" + n + p);
    SchemeClean(s, "//" + n + p);
    SchemeRead(s, "//" + n + p);
    NetlocRead(n, p);
    NoTail(p);
  }

  /** "//", a netloc and a path that is empty or starts with '/', no scheme. */
  lemma SplitNetlocOnly(n: string, p: string)
    requires Avoids(n, "/?#") && NoBreaks(n)
    requires (p == [] || p[0] == '/') && Avoids(p, "?#") && NoBreaks(p)
    ensures UrlSplit("//" + n + p)
      == if BracketsBalanced(n) then Ok(SplitResult([], n, p, [], []))
         else Err(InvalidIPv6(n))
  {
    var u := "//" + n + p;
    CleanSanitize(u);
    NoSchemeBefore(u);
    NetlocRead(n, p);
    NoTail(p);
  }

  /** A scheme and a path that does not start with "//": no netloc. */
  lemma SplitSchemeOnly(s: string, p: string)
    requires IsScheme(s) && !DoubleSlash(p) && Avoids(p, "?#") && NoBreaks(p)
    ensures UrlSplit(s + ":" + p) == Ok(SplitResult(Lower(s), [], p, [], []))
  {
    SchemeClean(s, p);
    SchemeRead(s, p);
    NoTail(p);
  }

  /** Text without ':', '?' or '#' that does not start with "//": all path. */
  lemma SplitPathOnly(p: string)
    requires ':' !in p && !DoubleSlash(p) && Avoids(p, "?#") && Clean(p)
    ensures UrlSplit(p) == Ok(SplitResult([], [], p, [], []))
  {
    CleanSanitize(p);
    assert Avoids(p, ":");
    SpanConcat(p, [], ":");
    assert p + [] == p;
    NoTail(p);
  }

  /** What urlunsplit writes from a scheme and a netloc it writes "//" for. */
  lemma HeadWritten(s: string, n: string, p: string)
    requires s != [] && (n != [] || (s in UsesNetloc && !DoubleSlash(p)))
    ensures HeadText(SplitResult(s, n, p, [], [])) == s + "://" + n + Rooted(p)
  {
    var q := SplitResult(s, n, p, [], []);
    assert WritesNetloc(q);
    assert HeadText(q) == s + ":" + ("//" + n + Rooted(p));
  }

  /** What urlunsplit writes from a scheme it writes "//" for and an empty netloc. */
  lemma HeadAdded(s: string, p: string)
    requires s != [] && s in UsesNetloc && !DoubleSlash(p)
    ensures HeadText(SplitResult(s, [], p, [], [])) == s + "://" + Rooted(p)
  {
    HeadWritten(s, [], p);
    assert s + "://" + [] + Rooted(p) == s + "://" + Rooted(p);
  }

  /** What urlunsplit writes from a scheme and an empty netloc it drops. */
  lemma HeadDropped(s: string, p: string)
    requires s != [] && (s !in UsesNetloc || DoubleSlash(p))
    ensures HeadText(SplitResult(s, [], p, [], [])) == s + ":" + p
  {
  }

  // ---------------------------------------------------------------- round trip

  /** Components urlunsplit writes in a form urlsplit reads back unchanged: the
      shape urlsplit gives, no tab or line break, a path that is empty or starts
      with '/' where "//" is written, no path starting "//" without a netloc,
      and, with neither scheme nor netloc, a path that neither reads as a scheme
      nor starts with a character the clean-up strips. */
  predicate Canonical(p: SplitResult) {
    && SplitShape(p)
    && NoBreaks(p.netloc) && NoBreaks(p.path) && NoBreaks(p.query) && NoBreaks(p.fragment)
    && (WritesNetloc(p) ==> p.path == [] || p.path[0] == '/')
    && (p.netloc == [] ==> !DoubleSlash(p.path))
    && (p.scheme == [] && p.netloc == [] ==>
          SplitScheme(p.path).0 == [] && (p.path == [] || !IsC0OrSpace(p.path[0])))
  }

  /** What urlunsplit writes after the scheme and its ':'. */
  function AfterScheme(p: SplitResult): string {
    (if WritesNetloc(p) then "//" + p.netloc + p.path else p.path)
      + QueryText(p.query) + FragmentText(p.fragment)
  }

  lemma SchemeNoBreaks(s: string)
    requires IsScheme(s)
    ensures NoBreaks(s)
  {
  }

  /** urlunsplit writes canonical components as the scheme, ':' and the rest. */
  lemma UnsplitText(p: SplitResult)
    requires Canonical(p)
    ensures p.scheme != [] ==> Unsplit(p) == p.scheme + ":" + AfterScheme(p)
    ensures p.scheme == [] ==> Unsplit(p) == AfterScheme(p)
  {
    if WritesNetloc(p) {
      assert Rooted(p.path) == p.path;
    }
  }

  /** urlunsplit's text of canonical components passes the clean-up unchanged. */
  lemma UnsplitClean(p: SplitResult)
    requires Canonical(p)
    ensures Clean(Unsplit(p))
  {
    UnsplitText(p);
    if p.scheme != [] {
      SchemeNoBreaks(p.scheme);
    }
  }

  /** urlsplit reads the scheme back from urlunsplit's text. */
  lemma SchemeBack(p: SplitResult)
    requires Canonical(p)
    ensures SplitScheme(Unsplit(p)) == (p.scheme, AfterScheme(p))
  {
    UnsplitText(p);
    if p.scheme != [] {
      SchemeRead(p.scheme, AfterScheme(p));
    } else if WritesNetloc(p) {
      NoSchemeBefore(AfterScheme(p));
    } else {
      PathSchemeBack(p);
    }
  }

  /** With neither scheme nor netloc, no scheme is read from the path and what follows it. */
  lemma PathSchemeBack(p: SplitResult)
    requires Canonical(p) && p.scheme == [] && p.netloc == []
    ensures SplitScheme(AfterScheme(p)) == ([], AfterScheme(p))
  {
    var t := QueryText(p.query) + FragmentText(p.fragment);
    assert AfterScheme(p) == p.path + t;
    SchemeHead(p.path, t);
  }

  /** urlsplit reads the netloc back from what follows the scheme. */
  lemma NetlocBack(p: SplitResult)
    requires Canonical(p)
    ensures SplitNetloc(AfterScheme(p)) == (p.netloc, p.path + QueryText(p.query) + FragmentText(p.fragment))
  {
    var q, f := QueryText(p.query), FragmentText(p.fragment);
    Reassoc(p.path, q, f);
    if WritesNetloc(p) {
      NetlocBackWritten(p, q + f);
    } else {
      NetlocBackNone(p, q + f);
    }
  }

  /** Where "//" is written, the netloc after it is read back. */
  lemma NetlocBackWritten(p: SplitResult, t: string)
    requires Canonical(p) && WritesNetloc(p)
    requires t == QueryText(p.query) + FragmentText(p.fragment)
    ensures SplitNetloc(AfterScheme(p)) == (p.netloc, p.path + t)
  {
    assert AfterScheme(p) == "//" + p.netloc + (p.path + t);
    assert p.path == [] ==> p.path + t == t;
    assert p.path != [] ==> (p.path + t)[0] == p.path[0];
    NetlocRead(p.netloc, p.path + t);
  }

  /** Where no "//" is written, no netloc is read. */
  lemma NetlocBackNone(p: SplitResult, t: string)
    requires Canonical(p) && !WritesNetloc(p)
    requires t == QueryText(p.query) + FragmentText(p.fragment)
    ensures SplitNetloc(AfterScheme(p)) == ([], p.path + t)
  {
    assert AfterScheme(p) == p.path + t;
    NetlocHead(p.path, t);
  }

  /** The round trip: urlsplit reads back exactly the canonical components
      urlunsplit wrote. */
  lemma UnsplitSplit(p: SplitResult)
    requires Canonical(p)
    ensures UrlSplit(Unsplit(p)) == Ok(p)
  {
    UnsplitClean(p);
    CleanSanitize(Unsplit(p));
    SchemeBack(p);
    NetlocBack(p);
    TailRead(p.path, p.query, p.fragment);
  }
}
