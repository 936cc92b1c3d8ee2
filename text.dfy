/** The pieces of Python's str type that the normalisers of cert_filler.py use:
    isspace, strip, replace, split() on whitespace, split(sep), " ".join and
    the substring test `in`. Strings are sequences of code points. */
module Text {

  /** str.isspace for one code point: the characters Python treats as whitespace. */
  predicate IsSpace(c: char) {
    c == ' ' || ('\t' <= c <= '\r') || ('\U{1c}' <= c <= '\U{1f}') || c == '\U{85}' || c == '\U{a0}'
    || c == '\U{1680}' || ('\U{2000}' <= c <= '\U{200a}') || c == '\U{2028}' || c == '\U{2029}'
    || c == '\U{202f}' || c == '\U{205f}' || c == '\U{3000}'
  }

  /** No character of s is whitespace. */
  predicate NoSpace(s: string) {
    forall i :: 0 <= i < |s| ==> !IsSpace(s[i])
  }

  /** s neither starts nor ends with whitespace. */
  predicate Trimmed(s: string) {
    s == [] || (!IsSpace(s[0]) && !IsSpace(s[|s| - 1]))
  }

  /** Trimmed, and every whitespace character is a single ' ' followed by a non-space:
      the shape of `" ".join(s.split())`. */
  predicate WellSpaced(s: string) {
    Trimmed(s) &&
    forall i :: 0 <= i < |s| && IsSpace(s[i]) ==> s[i] == ' ' && i + 1 < |s| && !IsSpace(s[i + 1])
  }

  /** sub occurs in s starting at position i. */
  predicate OccursAt(s: string, sub: string, i: nat) {
    i + |sub| <= |s| && s[i..i + |sub|] == sub
  }

  /** `sub in s`. */
  predicate Contains(s: string, sub: string) {
    exists i :: 0 <= i <= |s| - |sub| && OccursAt(s, sub, i)
  }

  /** str.lstrip(): drops the leading whitespace and nothing else. */
  function TrimStart(s: string): (r: string)
    ensures |r| <= |s| && r == s[|s| - |r|..]
    ensures forall i :: 0 <= i < |s| - |r| ==> IsSpace(s[i])
    ensures r == [] || !IsSpace(r[0])
  {
    if s != [] && IsSpace(s[0]) then TrimStart(s[1..]) else s
  }

  /** str.rstrip(): drops the trailing whitespace and nothing else. */
  function TrimEnd(s: string): (r: string)
    ensures |r| <= |s| && r == s[..|r|]
    ensures forall i :: |r| <= i < |s| ==> IsSpace(s[i])
    ensures r == [] || !IsSpace(r[|r| - 1])
  {
    if s != [] && IsSpace(s[|s| - 1]) then TrimEnd(s[..|s| - 1]) else s
  }

  /** How many whitespace characters str.lstrip() drops from the front of s. */
  function Lead(s: string): (n: nat)
    ensures n <= |s|
    ensures forall i :: 0 <= i < n ==> IsSpace(s[i])
  {
    |s| - |TrimStart(s)|
  }

  /** r is s with its leading and trailing whitespace cut off: a trimmed slice of s
      starting where str.lstrip() would start, with only whitespace after it. */
  predicate StripShape(s: string, r: string) {
    Trimmed(r)
    && Lead(s) + |r| <= |s| && r == s[Lead(s)..Lead(s) + |r|]
    && (forall i :: Lead(s) + |r| <= i < |s| ==> IsSpace(s[i]))
    && (Trimmed(s) ==> r == s)
  }

  /** str.strip(): the slice of s left after dropping whitespace at both ends. */
  function Strip(s: string): (r: string)
    ensures StripShape(s, r)
  {
    StripFacts(s);
    TrimEnd(TrimStart(s))
  }

  /** The facts behind Strip's contract. */
  lemma StripFacts(s: string)
    ensures StripShape(s, TrimEnd(TrimStart(s)))
  {
    StripSlice(s);
    StripTrimmed(s);
    StripBack(s);
    StripKeeps(s);
  }

  lemma StripSlice(s: string)
    ensures var r := TrimEnd(TrimStart(s));
            Lead(s) + |r| <= |s| && r == s[Lead(s)..Lead(s) + |r|]
  {
    var t := TrimStart(s);
    SliceOfSuffix(s, t, TrimEnd(t), Lead(s));
  }

  /** A prefix of the suffix of s that starts at lo is the slice of s starting at lo. */
  lemma SliceOfSuffix(s: string, t: string, r: string, lo: nat)
    requires lo + |t| == |s| && t == s[lo..]
    requires |r| <= |t| && r == t[..|r|]
    ensures lo + |r| <= |s| && r == s[lo..lo + |r|]
  {
  }

  lemma StripTrimmed(s: string)
    ensures Trimmed(TrimEnd(TrimStart(s)))
  {
    var t := TrimStart(s);
    var r := TrimEnd(t);
    if r != [] {
      assert r[0] == t[0];
    }
  }

  lemma StripBack(s: string)
    ensures var r := TrimEnd(TrimStart(s));
            forall i :: Lead(s) + |r| <= i < |s| ==> IsSpace(s[i])
  {
    var t := TrimStart(s);
    SpaceAfter(s, t, TrimEnd(t), Lead(s));
  }

  /** Whitespace at the back of the suffix t of s is whitespace at the back of s. */
  lemma SpaceAfter(s: string, t: string, r: string, lo: nat)
    requires lo + |t| == |s| && t == s[lo..]
    requires |r| <= |t| && forall i :: |r| <= i < |t| ==> IsSpace(t[i])
    ensures forall i :: lo + |r| <= i < |s| ==> IsSpace(s[i])
  {
    forall i | lo + |r| <= i < |s| ensures IsSpace(s[i]) {
      assert s[i] == t[i - lo];
    }
  }

  lemma StripKeeps(s: string)
    ensures Trimmed(s) ==> TrimEnd(TrimStart(s)) == s
  {
    if Trimmed(s) && s != [] {
      var t := TrimStart(s);
      assert |t| == |s|;
      assert TrimEnd(t) == t;
    }
  }

  lemma StripChars(s: string)
    ensures |Strip(s)| <= |s|
    ensures forall c :: c in Strip(s) ==> c in s
  {
    var r := Strip(s);
    SliceChars(s, Lead(s), Lead(s) + |r|);
  }

  /** Every character of a slice of s is a character of s. */
  lemma SliceChars(s: string, lo: nat, hi: nat)
    requires lo <= hi <= |s|
    ensures forall c :: c in s[lo..hi] ==> c in s
  {
    forall c | c in s[lo..hi] ensures c in s {
      var k :| 0 <= k < hi - lo && s[lo..hi][k] == c;
      assert s[lo + k] == c;
    }
  }

  /** A leading whitespace character makes no difference to strip(). */
  lemma StripSpaceFront(s: string)
    ensures Strip(" " + s) == Strip(s)
  {
    assert (" " + s)[1..] == s;
  }

  /** Concatenation regrouped; stated once so that proofs need not rediscover it. */
  lemma Reassoc(a: string, b: string, c: string)
    ensures (a + b) + c == a + (b + c)
  {
  }

  /** Every character of s is whitespace. */
  predicate AllSpace(s: string) {
    forall i :: 0 <= i < |s| ==> IsSpace(s[i])
  }

  lemma {:induction false} TrimStartPadded(pre: string, t: string)
    requires AllSpace(pre) && (t == [] || !IsSpace(t[0]))
    ensures TrimStart(pre + t) == t
  {
    if pre != [] {
      assert (pre + t)[1..] == pre[1..] + t;
      TrimStartPadded(pre[1..], t);
    } else {
      assert pre + t == t;
    }
  }

  lemma {:induction false} TrimEndPadded(t: string, post: string)
    requires AllSpace(post) && (t == [] || !IsSpace(t[|t| - 1]))
    ensures TrimEnd(t + post) == t
  {
    if post != [] {
      var q := post[..|post| - 1];
      assert (t + post)[..|t + post| - 1] == t + q;
      TrimEndPadded(t, q);
    } else {
      assert t + post == t;
    }
  }

  /** Stripping whitespace padding from a trimmed string gives the string back. */
  lemma StripPadded(pre: string, t: string, post: string)
    requires AllSpace(pre) && AllSpace(post) && Trimmed(t) && t != []
    ensures Strip(pre + (t + post)) == t
  {
    TrimStartPadded(pre, t + post);
    TrimEndPadded(t, post);
  }

  /** str.replace(pat, rep): every non-overlapping occurrence of pat, scanning
      left to right, is replaced by rep. (Python's empty-pattern case is not used.) */
  function Replace(s: string, pat: string, rep: string): (r: string)
    requires pat != []
    ensures |rep| <= |pat| ==> |r| <= |s|
    ensures |rep| == |pat| ==> |r| == |s|
    ensures forall c :: c in r ==> c in s || c in rep
    ensures |pat| == 1 && pat[0] !in rep ==> pat[0] !in r
    decreases |s|
  {
    if |s| < |pat| then
      assert |pat| == 1 ==> s == [];
      s
    else if s[..|pat|] == pat then
      rep + Replace(s[|pat|..], pat, rep)
    else
      assert |pat| == 1 ==> s[..1] == [s[0]];
      [s[0]] + Replace(s[1..], pat, rep)
  }

  /** Replace leaves alone a string in which the pattern's first character never occurs. */
  lemma {:induction false} ReplaceAbsent(s: string, pat: string, rep: string)
    requires pat != [] && pat[0] !in s
    ensures Replace(s, pat, rep) == s
    decreases |s|
  {
    if |s| >= |pat| {
      assert s[..|pat|][0] == s[0];
      ReplaceAbsent(s[1..], pat, rep);
    }
  }

  /** A prefix without the pattern's first character passes through Replace unchanged. */
  lemma {:induction false} ReplaceSkip(a: string, b: string, pat: string, rep: string)
    requires pat != [] && pat[0] !in a
    ensures Replace(a + b, pat, rep) == a + Replace(b, pat, rep)
    decreases |a|
  {
    if a != [] {
      var s := a + b;
      assert s[0] == a[0] && s[1..] == a[1..] + b;
      if |s| < |pat| {
        ReplaceShort(s, pat, rep);
        ReplaceShort(b, pat, rep);
      } else {
        assert s[..|pat|][0] == a[0];
        assert s[..|pat|] != pat;
        assert Replace(s, pat, rep) == [a[0]] + Replace(a[1..] + b, pat, rep);
        ReplaceSkip(a[1..], b, pat, rep);
        assert a == [a[0]] + a[1..];
      }
    } else {
      assert a + b == b;
    }
  }

  /** An occurrence at the front is replaced and the scan resumes after it. */
  lemma ReplaceHit(b: string, pat: string, rep: string)
    requires pat != []
    ensures Replace(pat + b, pat, rep) == rep + Replace(b, pat, rep)
  {
    assert (pat + b)[..|pat|] == pat;
    assert (pat + b)[|pat|..] == b;
  }

  /** A character that does not start an occurrence is kept and the scan moves one step. */
  lemma ReplaceMiss(c: char, b: string, pat: string, rep: string)
    requires pat != [] && (|[c] + b| < |pat| || ([c] + b)[..|pat|] != pat)
    ensures Replace([c] + b, pat, rep) == [c] + Replace(b, pat, rep)
  {
    assert ([c] + b)[1..] == b;
    if |[c] + b| < |pat| {
      ReplaceShort([c] + b, pat, rep);
      ReplaceShort(b, pat, rep);
    }
  }

  /** A pattern-length block that differs from the pattern, and whose later
      characters cannot start it, passes through Replace unchanged. */
  lemma ReplaceNear(w: string, b: string, pat: string, rep: string)
    requires pat != [] && |w| == |pat| && w != pat && pat[0] !in w[1..]
    ensures Replace(w + b, pat, rep) == w + Replace(b, pat, rep)
  {
    var s := w + b;
    calc {
      Replace(s, pat, rep);
    ==  { assert s[..|pat|] == w && s[0] == w[0] && s[1..] == w[1..] + b; }
      [w[0]] + Replace(w[1..] + b, pat, rep);
    ==  { ReplaceSkip(w[1..], b, pat, rep); }
      [w[0]] + (w[1..] + Replace(b, pat, rep));
    ==  { assert [w[0]] + w[1..] == w; }
      w + Replace(b, pat, rep);
    }
  }

  /** An occurrence cannot reach across a character the pattern does not contain,
      so Replace works on the two sides of such a character separately. */
  lemma {:induction false} ReplaceSplit(a: string, c: string, pat: string, rep: string)
    requires pat != [] && c != [] && c[0] !in pat
    ensures Replace(a + c, pat, rep) == Replace(a, pat, rep) + Replace(c, pat, rep)
    decreases |a|
  {
    var s := a + c;
    if a == [] {
      assert s == c;
    } else if |s| < |pat| {
      ReplaceShort(s, pat, rep);
      ReplaceShort(a, pat, rep);
      ReplaceShort(c, pat, rep);
    } else if |a| < |pat| {
      calc {
        Replace(s, pat, rep);
      ==  { NoReach(a, c, pat); assert s[0] == a[0] && s[1..] == a[1..] + c; }
        [a[0]] + Replace(a[1..] + c, pat, rep);
      ==  { ReplaceSplit(a[1..], c, pat, rep); }
        [a[0]] + (Replace(a[1..], pat, rep) + Replace(c, pat, rep));
      ==  { ReplaceShort(a[1..], pat, rep); ReplaceShort(a, pat, rep);
            assert [a[0]] + a[1..] == a; Reassoc([a[0]], a[1..], Replace(c, pat, rep)); }
        Replace(a, pat, rep) + Replace(c, pat, rep);
      }
    } else if s[..|pat|] == pat {
      var rest := a[|pat|..];
      calc {
        Replace(s, pat, rep);
      ==  { assert s[|pat|..] == rest + c; }
        rep + Replace(rest + c, pat, rep);
      ==  { ReplaceSplit(rest, c, pat, rep); }
        rep + (Replace(rest, pat, rep) + Replace(c, pat, rep));
      ==  { assert a[..|pat|] == pat; Reassoc(rep, Replace(rest, pat, rep), Replace(c, pat, rep)); }
        Replace(a, pat, rep) + Replace(c, pat, rep);
      }
    } else {
      calc {
        Replace(s, pat, rep);
      ==  { assert s[0] == a[0] && s[1..] == a[1..] + c; }
        [a[0]] + Replace(a[1..] + c, pat, rep);
      ==  { ReplaceSplit(a[1..], c, pat, rep); }
        [a[0]] + (Replace(a[1..], pat, rep) + Replace(c, pat, rep));
      ==  { assert a[..|pat|] == s[..|pat|]; Reassoc([a[0]], Replace(a[1..], pat, rep), Replace(c, pat, rep)); }
        Replace(a, pat, rep) + Replace(c, pat, rep);
      }
    }
  }

  /** A pattern that does not contain c[0] cannot start in a and run into c. */
  lemma NoReach(a: string, c: string, pat: string)
    requires c != [] && c[0] !in pat && |a| < |pat| <= |a + c|
    ensures (a + c)[..|pat|] != pat
  {
    assert (a + c)[..|pat|][|a|] == c[0];
  }

  /** Replace by a pattern without a space works word by word. */
  lemma ReplaceWords(a: string, b: string, pat: string, rep: string)
    requires pat != [] && ' ' !in pat
    ensures Replace(a + (" " + b), pat, rep) == Replace(a, pat, rep) + (" " + Replace(b, pat, rep))
  {
    ReplaceSplit(a, " " + b, pat, rep);
    ReplaceSkip(" ", b, pat, rep);
  }

  /** A string shorter than the pattern is unchanged. */
  lemma ReplaceShort(s: string, pat: string, rep: string)
    requires pat != [] && |s| < |pat|
    ensures Replace(s, pat, rep) == s
  {
  }

  /** str.split() with no separator: the maximal runs of non-whitespace, in order.
      A non-space character followed by a non-space character joins the first word
      of the rest of the string. */
  function Words(s: string): (ws: seq<string>)
    ensures s != [] && !IsSpace(s[0]) ==> ws != []
  {
    if s == [] then []
    else
      var ws := Words(s[1..]);
      if IsSpace(s[0]) then ws
      else if |s| == 1 || IsSpace(s[1]) then [[s[0]]] + ws
      else [[s[0]] + ws[0]] + ws[1..]
  }

  /** " ".join(ws). */
  function Join(ws: seq<string>): string {
    if ws == [] then "" else if |ws| == 1 then ws[0] else ws[0] + " " + Join(ws[1..])
  }

  /** " ".join(s.split()): whitespace runs become one space, the ends are trimmed. */
  function Collapse(s: string): (r: string)
    ensures WellSpaced(r)
    ensures |r| <= |s|
    ensures forall c :: c in r ==> c == ' ' || c in s
  {
    WordsAreWords(s);
    JoinWords(Words(s));
    CollapseLength(s);
    CollapseChars(s);
    Join(Words(s))
  }

  /** Every word str.split() returns is non-empty and free of whitespace. */
  lemma {:induction false} WordsAreWords(s: string)
    ensures forall k :: 0 <= k < |Words(s)| ==> Words(s)[k] != [] && NoSpace(Words(s)[k])
  {
    if s != [] {
      WordsAreWords(s[1..]);
      var ws := Words(s[1..]);
      if !IsSpace(s[0]) && |s| > 1 && !IsSpace(s[1]) {
        var w := [s[0]] + ws[0];
        assert NoSpace(w) by {
          forall i | 0 < i < |w| ensures !IsSpace(w[i]) { assert w[i] == ws[0][i - 1]; }
        }
        assert Words(s) == [w] + ws[1..];
      }
    }
  }

  /** Gluing a character onto the first word glues it onto the front of the joined string. */
  lemma {:induction false} JoinGlue(c: char, ws: seq<string>)
    requires ws != []
    ensures Join([[c] + ws[0]] + ws[1..]) == [c] + Join(ws)
  {
    var vs := [[c] + ws[0]] + ws[1..];
    if |ws| == 1 {
      assert vs == [[c] + ws[0]];
    } else {
      assert vs[0] == [c] + ws[0] && vs[1..] == ws[1..];
      calc {
        Join(vs);
        ([c] + ws[0]) + " " + Join(ws[1..]);
        [c] + (ws[0] + " " + Join(ws[1..]));
        [c] + Join(ws);
      }
    }
  }

  /** " ".join(s.split()) is no longer than s, and one shorter when s starts with whitespace. */
  lemma {:induction false} CollapseLength(s: string)
    ensures |Join(Words(s))| + (if s != [] && IsSpace(s[0]) then 1 else 0) <= |s|
  {
    if s != [] {
      CollapseLength(s[1..]);
      var ws := Words(s[1..]);
      if !IsSpace(s[0]) {
        if |s| == 1 || IsSpace(s[1]) {
          assert Words(s) == [[s[0]]] + ws;
          assert ws != [] ==> Join(Words(s)) == [s[0]] + " " + Join(ws);
        } else {
          JoinGlue(s[0], ws);
        }
      }
    }
  }

  /** The characters of " ".join(s.split()) are spaces and characters of s. */
  lemma {:induction false} CollapseChars(s: string)
    ensures forall c :: c in Join(Words(s)) ==> c == ' ' || c in s
  {
    if s != [] {
      CollapseChars(s[1..]);
      var ws := Words(s[1..]);
      assert forall c :: c in s[1..] ==> c in s;
      if !IsSpace(s[0]) {
        if |s| == 1 || IsSpace(s[1]) {
          assert Words(s) == [[s[0]]] + ws;
          assert ws != [] ==> Join(Words(s)) == [s[0]] + " " + Join(ws);
        } else {
          JoinGlue(s[0], ws);
        }
      }
    }
  }

  lemma {:induction false} JoinWords(ws: seq<string>)
    requires forall k :: 0 <= k < |ws| ==> ws[k] != [] && NoSpace(ws[k])
    ensures WellSpaced(Join(ws))
    ensures ws != [] ==> Join(ws) != []
  {
    if |ws| >= 2 {
      JoinWords(ws[1..]);
      var w, j := ws[0], Join(ws[1..]);
      var r := w + " " + j;
      assert r == Join(ws);
      forall i | 0 <= i < |r| && IsSpace(r[i])
        ensures r[i] == ' ' && i + 1 < |r| && !IsSpace(r[i + 1])
      {
        if i == |w| {
          assert r[i + 1] == j[0];
        } else {
          assert r[i] == j[i - |w| - 1];
          assert i + 1 < |r| && r[i + 1] == j[i - |w|];
        }
      }
      assert r[0] == w[0] && r[|r| - 1] == j[|j| - 1];
    }
  }

  /** Collapsing an already well-spaced string changes nothing. */
  lemma {:induction false} CollapseWellSpaced(s: string)
    requires WellSpaced(s)
    ensures Collapse(s) == s
  {
    if |s| == 1 {
      assert s[1..] == [] && [s[0]] == s;
      assert Words(s) == [s];
    } else if |s| > 1 {
      if IsSpace(s[1]) {
        var rest := s[2..];
        assert s[1] == ' ' && !IsSpace(s[2]);
        assert WellSpaced(rest) by {
          forall i | 0 <= i < |rest| && IsSpace(rest[i])
            ensures rest[i] == ' ' && i + 1 < |rest| && !IsSpace(rest[i + 1])
          {
            assert rest[i] == s[i + 2];
          }
        }
        CollapseWellSpaced(rest);
        assert s[1..][1..] == rest;
        assert Words(s[1..]) == Words(rest);
        assert Words(s) == [[s[0]]] + Words(rest);
        assert s == [s[0]] + " " + rest;
      } else {
        var rest := s[1..];
        assert WellSpaced(rest) by {
          forall i | 0 <= i < |rest| && IsSpace(rest[i])
            ensures rest[i] == ' ' && i + 1 < |rest| && !IsSpace(rest[i + 1])
          {
            assert rest[i] == s[i + 1];
          }
        }
        CollapseWellSpaced(rest);
        JoinGlue(s[0], Words(rest));
        assert s == [s[0]] + rest;
      }
    }
  }

  /** str.split(sep) with an explicit one-character separator: the pieces
      between separators, empty pieces included. */
  function SplitOn(s: string, sep: char): (parts: seq<string>)
    ensures |parts| >= 1
    ensures |parts| == 1 <==> sep !in s
    ensures forall k :: 0 <= k < |parts| ==> sep !in parts[k]
  {
    if s == [] then [""]
    else
      var rest := SplitOn(s[1..], sep);
      assert sep in s <==> s[0] == sep || sep in s[1..];
      if s[0] == sep then [""] + rest else [[s[0]] + rest[0]] + rest[1..]
  }

  /** sep.join(parts) */
  function JoinOn(parts: seq<string>, sep: char): string
    requires |parts| >= 1
  {
    if |parts| == 1 then parts[0] else parts[0] + ([sep] + JoinOn(parts[1..], sep))
  }

  /** Splitting and re-joining on the separator gives back the string. */
  lemma {:induction false} SplitOnJoinOn(s: string, sep: char)
    ensures JoinOn(SplitOn(s, sep), sep) == s
  {
    if s != [] {
      SplitOnJoinOn(s[1..], sep);
      var rest := SplitOn(s[1..], sep);
      if s[0] != sep && |rest| > 1 {
        assert SplitOn(s, sep)[1..] == rest[1..];
      }
    }
  }

  /** Joining separator-free pieces and splitting again gives back the pieces. */
  lemma {:induction false} JoinOnSplitOn(parts: seq<string>, sep: char)
    requires |parts| >= 1
    requires forall k :: 0 <= k < |parts| ==> sep !in parts[k]
    ensures SplitOn(JoinOn(parts, sep), sep) == parts
  {
    if |parts| == 1 {
      SplitOnAbsent(parts[0], sep);
    } else {
      JoinOnSplitOn(parts[1..], sep);
      SplitOnFirst(parts[0], JoinOn(parts[1..], sep), sep);
    }
  }

  lemma {:induction false} SplitOnAbsent(s: string, sep: char)
    requires sep !in s
    ensures SplitOn(s, sep) == [s]
  {
    if s != [] {
      SplitOnAbsent(s[1..], sep);
      assert [s[0]] + s[1..] == s;
    }
  }

  /** The first piece is everything before the first separator. */
  lemma {:induction false} SplitOnFirst(a: string, b: string, sep: char)
    requires sep !in a
    ensures SplitOn(a + ([sep] + b), sep) == [a] + SplitOn(b, sep)
    decreases |a|
  {
    var s := a + ([sep] + b);
    if a == [] {
      assert s == [sep] + b && s[1..] == b;
    } else {
      assert s[1..] == a[1..] + ([sep] + b);
      SplitOnFirst(a[1..], b, sep);
      assert [a[0]] + a[1..] == a;
      assert SplitOn(s, sep) == [[a[0]] + a[1..]] + SplitOn(b, sep);
    }
  }

  /** A string with the pattern at position i contains the pattern. */
  lemma ContainsAt(s: string, sub: string, i: nat)
    requires i + |sub| <= |s| && s[i..i + |sub|] == sub
    ensures Contains(s, sub)
  {
    assert OccursAt(s, sub, i);
  }
}
