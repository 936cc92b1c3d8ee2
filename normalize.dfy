/** The three normalisers of cert_filler.py: bsc_fmt_cert (certificate names),
    bsc_fmt_dates (LinkedIn date lines to MMDDYYYY) and bsc_fmt_url (credential
    links without query, fragment or tracking token). */
module Normalize {
  import opened Wrappers
  import opened Text
  import UrlParse

  /** The en dash U+2013 that bsc_fmt_cert turns into '-'. */
  const EnDash: char := '\U{2013}'

  /** The middle dot U+00B7 that separates the issue and expiry clauses. */
  const MiddleDot: char := '\U{b7}'

  /** A phrase to remove; Python's replace with an empty pattern is not used. */
  type Phrase = s: string | s != [] witness ":"

  /** The phrases bsc_fmt_cert removes, in the order it removes them. */
  const Phrases: seq<Phrase> := [":", "AWS", "Google Cloud", "Google", "Microsoft", "Certified",
                                 "HashiCorp", "KCNA", "CKA", "cert", "Certification"]

  /** The removal loop: each phrase in turn, every occurrence replaced by "" and
      the ends stripped. */
  function RemovePhrases(s: string, ps: seq<Phrase>): (r: string)
    ensures |r| <= |s|
    ensures forall c :: c in r ==> c in s
    ensures ps != [] ==> Trimmed(r)
    decreases |ps|
  {
    if ps == [] then s
    else
      StripChars(Replace(s, ps[0], ""));
      RemovePhrases(Strip(Replace(s, ps[0], "")), ps[1..])
  }

  /** A certificate name as bsc_fmt_cert cleans it: the phrases removed, the en
      dash replaced by '-', the ends stripped and whitespace runs collapsed. */
  function FmtCert(raw: string): (name: string)
    ensures WellSpaced(name)
    ensures ':' !in name && EnDash !in name
    ensures |name| <= |raw|
  {
    var ps := Phrases;
    assert |ps| > 0 && ps[0] == ":";
    Collapse(Tidy(raw, ps))
  }

  /** The removal loop over ps followed by the en dash replacement and a strip.
      With ":" as the first phrase no colon is left, and no en dash is left. */
  function Tidy(raw: string, ps: seq<Phrase>): (s: string)
    requires |ps| > 0 && ps[0] == ":"
    ensures ':' !in s && EnDash !in s && |s| <= |raw|
  {
    var dashed := Replace(RemovePhrases(raw, ps), [EnDash], "-");
    ColonRemoved(raw, ps);
    assert [EnDash][0] !in "-" && ':' !in "-";
    StripChars(dashed);
    Strip(dashed)
  }

  /** A removal loop that starts with ":" leaves no colon. */
  lemma ColonRemoved(raw: string, ps: seq<Phrase>)
    requires |ps| > 0 && ps[0] == ":"
    ensures ':' !in RemovePhrases(raw, ps)
  {
    StripChars(Replace(raw, ":", ""));
  }

  /** A string that starts with none of the phrases' first characters and is
      trimmed passes through the removal loop unchanged. */
  lemma {:induction false} RemovePhrasesAbsent(s: string, ps: seq<Phrase>)
    requires Trimmed(s)
    requires forall k :: 0 <= k < |ps| ==> ps[k][0] !in s
    ensures RemovePhrases(s, ps) == s
  {
    if ps != [] {
      ReplaceAbsent(s, ps[0], "");
      RemovePhrasesAbsent(s, ps[1..]);
    }
  }

  // ---------------------------------------------------------------- dates

  /** month_dict: three-letter English month abbreviations to two-digit numbers. */
  const Months: map<string, string> :=
    map["Jan" := "01", "Feb" := "02", "Mar" := "03", "Apr" := "04",
        "May" := "05", "Jun" := "06", "Jul" := "07", "Aug" := "08",
        "Sep" := "09", "Oct" := "10", "Nov" := "11", "Dec" := "12"]

  /** Why a date line cannot be converted: the first token of a clause is not a
      month abbreviation (Python's KeyError), or the clause has no second token
      (Python's IndexError). */
  datatype DateError = UnknownMonth(token: string) | MissingYear(clause: string)

  /** The list [has_expiry_date, issue, expiry-or-None] that bsc_fmt_dates returns. */
  datatype DateRange = DateRange(hasExpiry: bool, issue: string, expiry: Option<string>)

  /** A year as it appears on the listing: one or more decimal digits. */
  predicate IsYear(y: string) {
    y != [] && forall i :: 0 <= i < |y| ==> '0' <= y[i] <= '9'
  }

  /** The MMDDYYYY shape: a month number from the table, day "01", then the year text. */
  predicate IsDateCode(d: string) {
    |d| >= 4 && d[..2] in Months.Values && d[2..4] == "01"
  }

  /** One clause "Mon YYYY" converted: the month looked up first, then the year
      taken as the second space-separated token, whatever it holds. With t the
      clause split on single spaces: success iff t[0] is a month abbreviation
      and there is a t[1]; the date is that month's number, "01" and t[1]; an
      unknown t[0] is reported before a missing t[1]. */
  function FmtDate(clause: string): (r: Result<string, DateError>)
    ensures var t := SplitOn(clause, ' ');
            && (r.Ok? <==> t[0] in Months && |t| >= 2)
            && (r.Ok? ==> IsDateCode(r.value) && r.value[..2] == Months[t[0]] && r.value[4..] == t[1])
            && (r.Err? ==> (r.error.UnknownMonth? <==> t[0] !in Months))
            && (r.Err? && r.error.UnknownMonth? ==> r.error.token == t[0])
            && (r.Err? && r.error.MissingYear? ==> r.error.clause == clause && |t| < 2)
  {
    var tokens := SplitOn(clause, ' ');
    if tokens[0] !in Months then Err(UnknownMonth(tokens[0]))
    else if |tokens| < 2 then Err(MissingYear(clause))
    else
      var code := Months[tokens[0]] + "01" + tokens[1];
      assert code[..2] == Months[tokens[0]] && code[2..4] == "01" && code[4..] == tokens[1];
      Ok(code)
  }

  /** bsc_fmt_dates: the line is split on the middle dot; the issue clause loses
      "Issued", the expiry clause (when there is a dot) loses "Expires" and then
      "Expired"; both are stripped and converted, issue first. */
  function FmtDates(raw: string): (r: Result<DateRange, DateError>)
    ensures r.Ok? ==> (r.value.hasExpiry <==> MiddleDot in raw)
    ensures r.Ok? ==> (r.value.expiry.Some? <==> r.value.hasExpiry)
    ensures r.Ok? ==> IsDateCode(r.value.issue) &&
                      (r.value.expiry.Some? ==> IsDateCode(r.value.expiry.value))
  {
    var parts := SplitOn(raw, MiddleDot);
    var hasExpiry := MiddleDot in raw;
    var issueText := Strip(Replace(parts[0], "Issued", ""));
    match FmtDate(issueText)
    case Err(e) => Err(e)
    case Ok(issue) =>
      if hasExpiry then
        var expiryText := Strip(Replace(Replace(parts[1], "Expires", ""), "Expired", ""));
        match FmtDate(expiryText)
        case Err(e) => Err(e)
        case Ok(expiry) => Ok(DateRange(true, issue, Some(expiry)))
      else Ok(DateRange(false, issue, None))
  }

  /** The issue clause as the listing shows it. */
  function IssueClause(month: string, year: string): string {
    "Issued" + (" " + (month + (" " + year)))
  }

  /** The expiry clause as the listing shows it, with "Expires" or "Expired". */
  function ExpiryClause(keyword: string, month: string, year: string): string {
    keyword + (" " + (month + (" " + year)))
  }

  /** The facts about the month abbreviations that the date proofs use. */
  lemma MonthShape(m: string)
    requires m in Months
    ensures m != [] && !IsSpace(m[0]) && ' ' !in m && MiddleDot !in m && 'I' !in m && 'E' !in m
  {
  }

  /** The facts about a clause body "Mon YYYY" that the text proofs use. */
  lemma ClauseShape(m: string, y: string)
    requires m in Months && IsYear(y)
    ensures var b := m + (" " + y);
            b != [] && Trimmed(b) && MiddleDot !in b && 'I' !in b && 'E' !in b
  {
    MonthShape(m);
    forall c | c in y
      ensures '0' <= c <= '9'
    {
      var i :| 0 <= i < |y| && y[i] == c;
    }
  }

  /** A clause "Mon YYYY" converts to the month number, "01" and the year. */
  lemma ClauseDate(m: string, y: string)
    requires m in Months && IsYear(y)
    ensures FmtDate(m + (" " + y)) == Ok(Months[m] + "01" + y)
  {
    MonthShape(m);
    SplitOnFirst(m, y, ' ');
    assert ' ' !in y;
    SplitOnAbsent(y, ' ');
    assert [' '] + y == " " + y;
  }

  /** A clause with an unknown first token fails on the month, whatever follows. */
  lemma ClauseUnknown(m: string, y: string)
    requires m !in Months && ' ' !in m
    ensures FmtDate(m + (" " + y)) == Err(UnknownMonth(m))
  {
    SplitOnFirst(m, y, ' ');
    assert [' '] + y == " " + y;
  }

  /** "Issued" followed by a space, a clause body and trailing whitespace: with the
      keyword removed and the ends stripped, the body is left. */
  lemma IssueText(b: string, tail: string)
    requires b != [] && Trimmed(b) && 'I' !in b && AllSpace(tail) && 'I' !in tail
    ensures Strip(Replace("Issued" + (" " + (b + tail)), "Issued", "")) == b
  {
    var r := " " + (b + tail);
    ReplaceHit(r, "Issued", "");
    ReplaceAbsent(r, "Issued", "");
    assert "" + r == r;
    StripPadded(" ", b, tail);
  }

  /** "Expires" or "Expired" after a space and before a space and a clause body:
      with both keywords removed and the ends stripped, the body is left. */
  lemma ExpiryText(kw: string, b: string)
    requires kw == "Expires" || kw == "Expired"
    requires b != [] && Trimmed(b) && 'E' !in b
    ensures Strip(Replace(Replace(" " + (kw + (" " + b)), "Expires", ""), "Expired", "")) == b
  {
    var rest := " " + b;
    var r1 := Replace(" " + (kw + rest), "Expires", "");
    ReplaceSkip(" ", kw + rest, "Expires", "");
    ReplaceAbsent(rest, "Expires", "");
    ReplaceAbsent(rest, "Expired", "");
    if kw == "Expires" {
      ReplaceHit(rest, "Expires", "");
      assert "" + rest == rest;
      assert r1 == " " + rest;
      ReplaceAbsent(" " + rest, "Expired", "");
    } else {
      ReplaceNear(kw, rest, "Expires", "");
      assert r1 == " " + (kw + rest);
      ReplaceSkip(" ", kw + rest, "Expired", "");
      ReplaceHit(rest, "Expired", "");
      assert "" + rest == rest;
    }
    StripSpaceFront(rest);
    StripSpaceFront(b);
  }

  /** A listing with an issue clause only converts to the issue date and no expiry. */
  lemma DatesIssueOnly(m: string, y: string)
    requires m in Months && IsYear(y)
    ensures FmtDates(IssueClause(m, y)) == Ok(DateRange(false, Months[m] + "01" + y, None))
  {
    var b := m + (" " + y);
    ClauseShape(m, y);
    var raw := IssueClause(m, y);
    assert raw == "Issued" + (" " + b);
    assert MiddleDot !in raw;
    SplitOnAbsent(raw, MiddleDot);
    assert b + "" == b;
    IssueText(b, "");
    ClauseDate(m, y);
  }

  /** A listing "Issued Mon YYYY · Expires Mon YYYY" (or "Expired") converts to both dates. */
  lemma DatesWithExpiry(m1: string, y1: string, kw: string, m2: string, y2: string)
    requires m1 in Months && IsYear(y1) && m2 in Months && IsYear(y2)
    requires kw == "Expires" || kw == "Expired"
    ensures FmtDates(IssueClause(m1, y1) + (" " + ([MiddleDot] + (" " + ExpiryClause(kw, m2, y2)))))
            == Ok(DateRange(true, Months[m1] + "01" + y1, Some(Months[m2] + "01" + y2)))
  {
    var b1 := m1 + (" " + y1);
    var b2 := m2 + (" " + y2);
    ClauseShape(m1, y1);
    ClauseShape(m2, y2);
    LineSplit(m1, y1, kw, m2, y2);
    IssueText(b1, " ");
    ExpiryText(kw, b2);
    ClauseDate(m1, y1);
    ClauseDate(m2, y2);
    DatesFromClauses(IssueClause(m1, y1) + (" " + ([MiddleDot] + (" " + ExpiryClause(kw, m2, y2)))),
                     "Issued" + (" " + (b1 + " ")), " " + (kw + (" " + b2)), b1, b2);
  }

  /** The two-clause line splits at its middle dot into the issue clause with its
      trailing space and the expiry clause with its leading space. */
  lemma LineSplit(m1: string, y1: string, kw: string, m2: string, y2: string)
    requires m1 in Months && IsYear(y1) && m2 in Months && IsYear(y2)
    requires kw == "Expires" || kw == "Expired"
    ensures SplitOn(IssueClause(m1, y1) + (" " + ([MiddleDot] + (" " + ExpiryClause(kw, m2, y2)))), MiddleDot)
            == ["Issued" + (" " + (m1 + (" " + y1) + " ")), " " + (kw + (" " + (m2 + (" " + y2))))]
  {
    var b1 := m1 + (" " + y1);
    var b2 := m2 + (" " + y2);
    ClauseShape(m1, y1);
    ClauseShape(m2, y2);
    var front := "Issued" + (" " + (b1 + " "));
    var expiry := " " + (kw + (" " + b2));
    assert IssueClause(m1, y1) + (" " + ([MiddleDot] + (" " + ExpiryClause(kw, m2, y2))))
        == front + ([MiddleDot] + expiry);
    assert MiddleDot !in front && MiddleDot !in expiry;
    SplitOnFirst(front, expiry, MiddleDot);
    SplitOnAbsent(expiry, MiddleDot);
  }

  /** When the line splits into two pieces whose cleaned clauses convert, the
      result holds both dates. */
  lemma DatesFromClauses(raw: string, p0: string, p1: string, b1: string, b2: string)
    requires SplitOn(raw, MiddleDot) == [p0, p1]
    requires Strip(Replace(p0, "Issued", "")) == b1
    requires Strip(Replace(Replace(p1, "Expires", ""), "Expired", "")) == b2
    requires FmtDate(b1).Ok? && FmtDate(b2).Ok?
    ensures FmtDates(raw) == Ok(DateRange(true, FmtDate(b1).value, Some(FmtDate(b2).value)))
  {
  }

  /** A listing whose issue month is not in the table fails on that token. */
  lemma DatesUnknownMonth(m: string, y: string)
    requires m !in Months && m != [] && !IsSpace(m[0]) && NoSpace(m) && IsYear(y)
    requires MiddleDot !in m && 'I' !in m
    ensures FmtDates(IssueClause(m, y)) == Err(UnknownMonth(m))
  {
    var b := m + (" " + y);
    assert b != [] && Trimmed(b) && MiddleDot !in b && 'I' !in b by {
      forall c | c in y
        ensures '0' <= c <= '9'
      {
        var i :| 0 <= i < |y| && y[i] == c;
      }
    }
    var raw := IssueClause(m, y);
    assert raw == "Issued" + (" " + b);
    assert MiddleDot !in raw;
    SplitOnAbsent(raw, MiddleDot);
    assert b + "" == b;
    IssueText(b, "");
    assert ' ' !in m;
    ClauseUnknown(m, y);
  }

  // ---------------------------------------------------------------- links

  /** The tracking token bsc_fmt_url deletes. */
  const TrackingToken: string := "linked_in_profile"

  /** bsc_fmt_url: split the link with urlsplit, rebuild it with urlunsplit from
      scheme, netloc and path only, delete every occurrence of the tracking token
      and strip the ends. urlsplit's bracket error is not caught. */
  function FmtUrl(url: string): (r: Result<string, UrlParse.UrlError>)
    ensures r.Err? <==> !UrlParse.BracketsBalanced(UrlParse.Netloc(url))
    ensures r.Err? ==> r.error == UrlParse.InvalidIPv6(UrlParse.Netloc(url))
    ensures r.Ok? ==> '?' !in r.value && '#' !in r.value && UrlParse.NoBreaks(r.value)
    ensures r.Ok? ==> |r.value| <= |url| + 3
  {
    UrlParse.UrlSplitFails(url);
    match UrlParse.UrlSplit(url)
    case Err(e) => Err(e)
    case Ok(p) =>
      var kept := UrlParse.Unsplit(UrlParse.Kept(p));
      UrlParse.HeadTextFacts(url);
      StripChars(Replace(kept, TrackingToken, ""));
      Ok(Strip(Replace(kept, TrackingToken, "")))
  }

  /** The link rebuilt from what urlsplit read: deleted token, stripped ends. */
  function Cleaned(head: string): string {
    Strip(Replace(head, TrackingToken, ""))
  }

  /** Once urlsplit has read a link, the cleaned link is what urlunsplit writes
      from its scheme, netloc and path, cleaned. */
  lemma UrlFromSplit(url: string, p: UrlParse.SplitResult)
    requires UrlParse.UrlSplit(url) == Ok(p)
    ensures FmtUrl(url) == Ok(Cleaned(UrlParse.HeadText(p)))
  {
  }

  /** A query or fragment appended to a link never changes the cleaned link,
      nor whether the link is refused. */
  lemma UrlIgnoresQuery(head: string, tail: string)
    requires '?' !in head && '#' !in head
    requires tail == [] || tail[0] == '?' || tail[0] == '#'
    ensures FmtUrl(head + tail) == FmtUrl(head)
  {
    assert UrlParse.Avoids(head, "?#");
    UrlParse.SplitIgnoresTail(head, tail);
  }

  /** A link with a scheme and "//" keeps its netloc and path, and its scheme in
      lower case, unless the netloc is empty and urlunsplit would not write it
      back; a netloc with one kind of bracket only is refused. */
  lemma UrlKeepsNetloc(s: string, n: string, p: string)
    requires UrlParse.IsScheme(s) && UrlParse.Avoids(n, "/?#") && UrlParse.NoBreaks(n)
    requires (p == [] || p[0] == '/') && UrlParse.Avoids(p, "?#") && UrlParse.NoBreaks(p)
    requires n != [] || (UrlParse.Lower(s) in UrlParse.UsesNetloc && !UrlParse.DoubleSlash(p))
    ensures FmtUrl(s + "://" + n + p)
      == if UrlParse.BracketsBalanced(n) then Ok(Cleaned(UrlParse.Lower(s) + "://" + n + p))
         else Err(UrlParse.InvalidIPv6(n))
  {
    var q := UrlParse.SplitResult(UrlParse.Lower(s), n, p, [], []);
    UrlParse.SplitWithNetloc(s, n, p);
    if UrlParse.BracketsBalanced(n) {
      assert UrlParse.Kept(q) == q;
      UrlFromSplit(s + "://" + n + p, q);
      UrlParse.HeadWritten(UrlParse.Lower(s), n, p);
      assert UrlParse.Rooted(p) == p;
    }
  }

  /** A scheme that urlunsplit writes "//" for gains an empty netloc, and a '/'
      before a path that has none: "https:example.com/cert" becomes
      "https:///example.com/cert". */
  lemma UrlAddsNetloc(s: string, p: string)
    requires UrlParse.IsScheme(s) && UrlParse.Lower(s) in UrlParse.UsesNetloc
    requires !UrlParse.DoubleSlash(p) && UrlParse.Avoids(p, "?#") && UrlParse.NoBreaks(p)
    ensures FmtUrl(s + ":" + p) == Ok(Cleaned(UrlParse.Lower(s) + "://" + UrlParse.Rooted(p)))
  {
    var q := UrlParse.SplitResult(UrlParse.Lower(s), [], p, [], []);
    UrlParse.SplitSchemeOnly(s, p);
    assert UrlParse.Kept(q) == q;
    UrlFromSplit(s + ":" + p, q);
    UrlParse.HeadAdded(UrlParse.Lower(s), p);
  }

  /** An empty netloc is lost after a scheme that urlunsplit writes no "//" for,
      or before a path that starts with "//": "foo:///x" becomes "foo:/x", and
      "https:////x" becomes "https://x", whose netloc is "x". */
  lemma UrlDropsNetloc(s: string, p: string)
    requires UrlParse.IsScheme(s)
    requires UrlParse.Lower(s) !in UrlParse.UsesNetloc || UrlParse.DoubleSlash(p)
    requires (p == [] || p[0] == '/') && UrlParse.Avoids(p, "?#") && UrlParse.NoBreaks(p)
    ensures FmtUrl(s + "://" + p) == Ok(Cleaned(UrlParse.Lower(s) + ":" + p))
  {
    var q := UrlParse.SplitResult(UrlParse.Lower(s), [], p, [], []);
    assert s + "://" + p == s + "://" + [] + p;
    UrlParse.SplitWithNetloc(s, [], p);
    assert UrlParse.Kept(q) == q;
    UrlFromSplit(s + "://" + p, q);
    UrlParse.HeadDropped(UrlParse.Lower(s), p);
  }

  /** Without a scheme, an empty netloc is lost: "///x" becomes "/x"; a
      non-empty one is kept. */
  lemma UrlWithoutScheme(n: string, p: string)
    requires UrlParse.Avoids(n, "/?#") && UrlParse.NoBreaks(n)
    requires (p == [] || p[0] == '/') && UrlParse.Avoids(p, "?#") && UrlParse.NoBreaks(p)
    ensures FmtUrl("//" + n + p)
      == if !UrlParse.BracketsBalanced(n) then Err(UrlParse.InvalidIPv6(n))
         else if n == [] then Ok(Cleaned(p))
         else Ok(Cleaned("//" + n + p))
  {
    var q := UrlParse.SplitResult([], n, p, [], []);
    UrlParse.SplitNetlocOnly(n, p);
    if UrlParse.BracketsBalanced(n) {
      assert UrlParse.Kept(q) == q;
      UrlFromSplit("//" + n + p, q);
      assert UrlParse.Rooted(p) == p;
    }
  }

  /** A link with no ':', '?' or '#' that does not start with "//" is all path:
      only the token and the ends go. */
  lemma UrlPlain(head: string)
    requires ':' !in head && '?' !in head && '#' !in head
    requires !UrlParse.DoubleSlash(head) && UrlParse.Clean(head)
    ensures FmtUrl(head) == Ok(Cleaned(head))
  {
    var q := UrlParse.SplitResult([], [], head, [], []);
    assert UrlParse.Avoids(head, "?#");
    UrlParse.SplitPathOnly(head);
    assert UrlParse.Kept(q) == q;
    UrlFromSplit(head, q);
  }
}
