/** The extraction loop of cert_filler.py: every certification entry of the
    LinkedIn listing is cleaned with the three normalisers, and an entry whose
    link element exists becomes a record of full_certs. The page is abstracted
    into what the loop reads from each entry. */
module Extraction {
  import opened Wrappers
  import opened Text
  import opened Normalize
  import UrlParse

  /** The link element of an entry: absent, or present with or without its anchor
      (and the anchor's href text). */
  datatype Link = NoLinkDiv | LinkDiv(anchor: Option<string>)

  /** What the loop reads from one listing entry: the name span, the "Issued"
      line and the link element. A missing span or line is None. */
  datatype Entry = Entry(title: Option<string>, issued: Option<string>, link: Link)

  /** One element of full_certs. */
  datatype Record = Record(name: string, expires: bool, issueDate: string,
                           expiryDate: Option<string>, url: string)

  /** Why an entry stops the whole run: a lookup the loop does not guard fails,
      the date line does not convert, or urlsplit refuses the link. */
  datatype EntryError = NoTitle | NoIssued | BadDates(error: DateError) | NoAnchor
                      | BadUrl(urlError: UrlParse.UrlError)

  /** The run stops at the entry with index `at`. */
  datatype ExtractError = ExtractError(at: nat, cause: EntryError)

  /** What every record built by the loop satisfies. */
  predicate WellFormed(r: Record) {
    && WellSpaced(r.name) && ':' !in r.name && EnDash !in r.name
    && (r.expires <==> r.expiryDate.Some?)
    && IsDateCode(r.issueDate)
    && (r.expiryDate.Some? ==> IsDateCode(r.expiryDate.value))
    && '?' !in r.url && '#' !in r.url
  }

  /** One pass of the loop body, in the order the source does things: name,
      dates, then the link check. Ok(None) is the `continue` for an entry
      without a link element. */
  function Step(e: Entry): (r: Result<Option<Record>, EntryError>)
    ensures r.Ok? ==> (r.value.None? <==> e.link.NoLinkDiv?)
    ensures r.Ok? && r.value.Some? ==> WellFormed(r.value.value)
    ensures r.Err? && r.error.BadDates? ==> e.issued.Some? && FmtDates(e.issued.value) == Err(r.error.error)
    ensures r.Err? && r.error.BadUrl? ==> e.link.LinkDiv? && e.link.anchor.Some?
                                          && FmtUrl(e.link.anchor.value) == Err(r.error.urlError)
  {
    if e.title.None? then Err(NoTitle)
    else if e.issued.None? then Err(NoIssued)
    else
      match FmtDates(e.issued.value)
      case Err(d) => Err(BadDates(d))
      case Ok(dates) =>
        match e.link
        case NoLinkDiv => Ok(None)
        case LinkDiv(anchor) =>
          if anchor.None? then Err(NoAnchor)
          else
            match FmtUrl(anchor.value)
            case Err(u) => Err(BadUrl(u))
            case Ok(url) =>
              RecordFormed(e.title.value, e.issued.value, anchor.value);
              Ok(Some(Record(FmtCert(e.title.value), dates.hasExpiry, dates.issue, dates.expiry, url)))
  }

  /** The record built from fields that were each normalised is well formed. */
  lemma RecordFormed(title: string, issued: string, link: string)
    requires FmtDates(issued).Ok? && FmtUrl(link).Ok?
    ensures var d, u := FmtDates(issued).value, FmtUrl(link).value;
      WellFormed(Record(FmtCert(title), d.hasExpiry, d.issue, d.expiry, u))
  {
  }

  /** What the loop body makes of one entry. */
  type Outcome = Result<Option<Record>, EntryError>

  /** The outcome of every entry, in listing order. */
  function Outcomes(es: seq<Entry>): (rs: seq<Outcome>)
    ensures |rs| == |es| && forall i :: 0 <= i < |es| ==> rs[i] == Step(es[i])
  {
    seq(|es|, i requires 0 <= i < |es| => Step(es[i]))
  }

  /** The state of full_certs after the loop has run over entries with outcomes
      rs, built the way the loop builds it: one entry after the other, appending
      at the end, and stopping the run at the first entry that fails. */
  function Gather(rs: seq<Outcome>): Result<seq<Record>, ExtractError>
    decreases |rs|
  {
    if rs == [] then Ok([])
    else
      var n := |rs| - 1;
      match Gather(rs[..n])
      case Err(err) => Err(err)
      case Ok(recs) =>
        match rs[n]
        case Err(cause) => Err(ExtractError(n, cause))
        case Ok(None) => Ok(recs)
        case Ok(Some(r)) => Ok(recs + [r])
  }

  /** The result of the extraction loop over the listing. */
  function Collected(es: seq<Entry>): Result<seq<Record>, ExtractError> {
    Gather(Outcomes(es))
  }

  /** The body of the extraction loop for one entry, in the source's order: the
      name, the dates, then the link element and its anchor. */
  method Convert(e: Entry) returns (out: Outcome)
    ensures out == Step(e)
  {
    if e.title.None? {
      return Err(NoTitle);
    }
    var name := FmtCert(e.title.value);
    if e.issued.None? {
      return Err(NoIssued);
    }
    var dates := FmtDates(e.issued.value);
    if dates.Err? {
      return Err(BadDates(dates.error));
    }
    if e.link.NoLinkDiv? {
      return Ok(None);
    }
    if e.link.anchor.None? {
      return Err(NoAnchor);
    }
    var linkText := FmtUrl(e.link.anchor.value);
    if linkText.Err? {
      return Err(BadUrl(linkText.error));
    }
    out := Ok(Some(Record(name, dates.value.hasExpiry, dates.value.issue, dates.value.expiry, linkText.value)));
  }

  /** The extraction loop over the listing entries: an entry that fails stops the
      run, an entry without a link element is skipped, any other is appended. */
  method Extract(entries: seq<Entry>) returns (r: Result<seq<Record>, ExtractError>)
    ensures r == Collected(entries)
  {
    ghost var rs := Outcomes(entries);
    var fullCerts: seq<Record> := [];
    var i := 0;
    while i < |entries|
      invariant 0 <= i <= |entries|
      invariant Gather(rs[..i]) == Ok(fullCerts)
    {
      var out := Convert(entries[i]);
      assert out == rs[i];
      if out.Err? {
        GatherStops(rs, i);
        return Err(ExtractError(i, out.error));
      }
      GatherNext(rs, i, fullCerts);
      if out.value.Some? {
        fullCerts := fullCerts + [out.value.value];
      }
      i := i + 1;
    }
    assert rs[..i] == rs;
    r := Ok(fullCerts);
  }

  /** One more entry that converts extends the run by its record, if it has one. */
  lemma GatherNext(rs: seq<Outcome>, i: nat, recs: seq<Record>)
    requires i < |rs| && Gather(rs[..i]) == Ok(recs) && rs[i].Ok?
    ensures Gather(rs[..i + 1]) == Ok(if rs[i].value.Some? then recs + [rs[i].value.value] else recs)
  {
    assert rs[..i + 1][..i] == rs[..i];
  }

  /** Once an entry fails, the entries after it do not matter: the run stops there. */
  lemma {:induction false} GatherStops(rs: seq<Outcome>, i: nat)
    requires i < |rs| && Gather(rs[..i]).Ok? && rs[i].Err?
    ensures Gather(rs) == Err(ExtractError(i, rs[i].error))
    decreases |rs|
  {
    var n := |rs| - 1;
    if i < n {
      assert rs[..n][..i] == rs[..i];
      GatherStops(rs[..n], i);
    } else {
      assert rs[..n] == rs[..i];
    }
  }

  /** The records of outcomes rs, read from the front: one per Ok(Some(_)). */
  function Picked(rs: seq<Outcome>): seq<Record> {
    if rs == [] then []
    else (match rs[0] case Ok(Some(r)) => [r] case _ => []) + Picked(rs[1..])
  }

  /** The number of outcomes that skip their entry. */
  function Skipped(rs: seq<Outcome>): nat {
    if rs == [] then 0 else (if rs[0] == Ok(None) then 1 else 0) + Skipped(rs[1..])
  }

  /** Picked works piecewise: the records of a + b are those of a, then those of b. */
  lemma {:induction false} PickedConcat(a: seq<Outcome>, b: seq<Outcome>)
    ensures Picked(a + b) == Picked(a) + Picked(b)
    decreases |a|
  {
    if a == [] {
      assert a + b == b;
    } else {
      assert (a + b)[0] == a[0] && (a + b)[1..] == a[1..] + b;
      PickedConcat(a[1..], b);
    }
  }

  /** The run succeeds exactly when every entry's outcome is Ok. */
  lemma {:induction false} GatherOk(rs: seq<Outcome>)
    ensures Gather(rs).Ok? <==> forall i :: 0 <= i < |rs| ==> rs[i].Ok?
    decreases |rs|
  {
    if rs != [] {
      var n := |rs| - 1;
      GatherOk(rs[..n]);
      assert forall i :: 0 <= i < n ==> rs[..n][i] == rs[i];
    }
  }

  /** A failed run names the first failing entry and its cause. */
  lemma {:induction false} GatherFirstError(rs: seq<Outcome>)
    requires Gather(rs).Err?
    ensures var err := Gather(rs).error;
            err.at < |rs| && rs[err.at] == Err(err.cause)
            && forall j :: 0 <= j < err.at ==> rs[j].Ok?
    decreases |rs|
  {
    var n := |rs| - 1;
    assert forall i :: 0 <= i < n ==> rs[..n][i] == rs[i];
    if Gather(rs[..n]).Err? {
      GatherFirstError(rs[..n]);
    } else {
      GatherOk(rs[..n]);
    }
  }

  /** A successful run holds, in order, exactly the records read from the front. */
  lemma {:induction false} GatherPicked(rs: seq<Outcome>)
    requires Gather(rs).Ok?
    ensures Gather(rs).value == Picked(rs)
    decreases |rs|
  {
    if rs != [] {
      var n := |rs| - 1;
      GatherPicked(rs[..n]);
      assert rs == rs[..n] + [rs[n]];
      PickedConcat(rs[..n], [rs[n]]);
      assert [rs[n]][1..] == [];
    }
  }

  /** With every outcome Ok, one record is kept per outcome that does not skip. */
  lemma {:induction false} PickedLength(rs: seq<Outcome>)
    requires forall i :: 0 <= i < |rs| ==> rs[i].Ok?
    ensures |Picked(rs)| == |rs| - Skipped(rs)
    decreases |rs|
  {
    if rs != [] {
      assert rs[0].Ok?;
      assert forall i :: 0 <= i < |rs| - 1 ==> rs[1..][i] == rs[i + 1];
      PickedLength(rs[1..]);
    }
  }

  /** Every record kept comes from an outcome Ok(Some(_)). */
  lemma {:induction false} PickedFrom(rs: seq<Outcome>, r: Record)
    requires r in Picked(rs)
    ensures exists i :: 0 <= i < |rs| && rs[i] == Ok(Some(r))
    decreases |rs|
  {
    if rs[0] != Ok(Some(r)) {
      PickedFrom(rs[1..], r);
      var i :| 0 <= i < |rs| - 1 && rs[1..][i] == Ok(Some(r));
      assert rs[i + 1] == Ok(Some(r));
    }
  }

  /** The number of entries without a link element. */
  function Linkless(es: seq<Entry>): nat {
    if es == [] then 0 else (if es[0].link.NoLinkDiv? then 1 else 0) + Linkless(es[1..])
  }

  /** All entries convert. */
  predicate AllConvert(es: seq<Entry>) {
    forall i :: 0 <= i < |es| ==> Step(es[i]).Ok?
  }

  /** When every outcome is Ok and skips exactly the linkless entries, the
      skipped entries are counted by Linkless. */
  lemma {:induction false} SkippedLinkless(rs: seq<Outcome>, es: seq<Entry>)
    requires |rs| == |es|
    requires forall i :: 0 <= i < |rs| ==> rs[i].Ok? && (rs[i] == Ok(None) <==> es[i].link.NoLinkDiv?)
    ensures Skipped(rs) == Linkless(es)
    decreases |es|
  {
    if es != [] {
      assert rs[0].Ok? && (rs[0] == Ok(None) <==> es[0].link.NoLinkDiv?);
      assert forall i :: 0 <= i < |es| - 1 ==> rs[1..][i] == rs[i + 1] && es[1..][i] == es[i + 1];
      SkippedLinkless(rs[1..], es[1..]);
    }
  }

  /** A run over listing entries succeeds exactly when every entry converts. */
  lemma ExtractSucceeds(es: seq<Entry>)
    ensures Collected(es).Ok? <==> AllConvert(es)
  {
    GatherOk(Outcomes(es));
  }

  /** A successful run holds, in listing order, the records of the linked
      entries: one per entry with a link element, N minus the linkless ones. */
  lemma ExtractRecords(es: seq<Entry>)
    requires AllConvert(es)
    ensures Collected(es).Ok?
    ensures Collected(es).value == Picked(Outcomes(es))
    ensures |Collected(es).value| == |es| - Linkless(es)
  {
    var rs := Outcomes(es);
    GatherOk(rs);
    GatherPicked(rs);
    PickedLength(rs);
    SkippedLinkless(rs, es);
  }

  /** Every record of a successful run is well formed. */
  lemma ExtractWellFormed(es: seq<Entry>)
    requires Collected(es).Ok?
    ensures forall r :: r in Collected(es).value ==> WellFormed(r)
  {
    var rs := Outcomes(es);
    GatherPicked(rs);
    forall r | r in Picked(rs)
      ensures WellFormed(r)
    {
      PickedFrom(rs, r);
    }
  }

  /** A failed run stops at the first entry that does not convert, with that
      entry's cause. */
  lemma ExtractFails(es: seq<Entry>)
    requires Collected(es).Err?
    ensures var err := Collected(es).error;
            err.at < |es| && Step(es[err.at]) == Err(err.cause) && AllConvert(es[..err.at])
  {
    GatherFirstError(Outcomes(es));
  }

  /** The records kept from a listing split in two are those of each part in turn. */
  lemma ExtractOrder(a: seq<Entry>, b: seq<Entry>)
    ensures Picked(Outcomes(a + b)) == Picked(Outcomes(a)) + Picked(Outcomes(b))
  {
    assert Outcomes(a + b) == Outcomes(a) + Outcomes(b);
    PickedConcat(Outcomes(a), Outcomes(b));
  }

  /** An entry whose month is unknown stops the run even when it has no link
      element: the dates are converted before the link is looked up. */
  lemma UnknownMonthAborts(es: seq<Entry>, i: nat, t: string, d: string)
    requires i < |es| && es[i] == Entry(Some(t), Some(d), NoLinkDiv)
    requires FmtDates(d).Err? && FmtDates(d).error.UnknownMonth?
    ensures Collected(es).Err?
  {
    GatherOk(Outcomes(es));
    assert Outcomes(es)[i].Err?;
  }
}
