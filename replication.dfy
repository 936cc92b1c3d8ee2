/** The replication loop of cert_filler.py: every extracted record is entered
    into the BSC claim form, and the records the form rejects are collected in
    `failures`. The browser is abstracted: what the loop observes for a record
    is an input, and what it does to the form is an action appended to a log. */
module Replication {
  import opened Wrappers
  import opened Text
  import opened Extraction

  /** The waits of one attempt, in the order the form reaches them: the name
      container (line 259), the search box (262), the issue date field (276), the
      expiry field or no-expiry checkbox (278, 280), the URL field (282) and the
      result banner (284). */
  datatype Wait = NameBox | SearchBox | IssueBox | ExpiryBox | UrlBox | Banner

  /** What the browser shows while one record is entered: the wait that times
      out, if any; whether the search shows the "no results" alert; the text of
      the result banner. */
  datatype Observation = Observation(timeout: Option<Wait>, noMatch: bool, banner: string)

  /** What the loop does to the form. */
  datatype Action =
    | Navigate                       // reload the claim form (line 245)
    | OpenPicker                     // click the certificate selector (260)
    | TypeName(name: string)         // type the name into its search box (262)
    | Choose                         // press Enter on the match (275)
    | FillIssue(date: string)        // the issue date field (276)
    | FillExpiry(expiry: Option<string>) // the expiry date field (278)
    | TickNoExpiry                   // the no-expiry checkbox (280)
    | FillUrl(url: string)           // the URL field (282)
    | Submit                         // press Enter in the URL field (283)

  /** How one attempt ends: added, recorded as a failure, or stopped by an
      uncaught timeout that ends the whole run. */
  datatype Verdict = Added | Failed | TimedOut

  /** The actions of one attempt and how it ends. */
  datatype Attempt = Attempt(actions: seq<Action>, verdict: Verdict)

  /** The banner text that signals success. */
  const AddedText: string := "has been added"

  /** `sub in s`, scanning s from the front. */
  predicate Mentions(s: string, sub: string)
    decreases |s|
  {
    |sub| <= |s| && (s[..|sub|] == sub || Mentions(s[1..], sub))
  }

  /** Mentions is Python's substring test `sub in s`: sub occurs somewhere in s. */
  lemma MentionsContains(s: string, sub: string)
    ensures Mentions(s, sub) <==> Contains(s, sub)
  {
    if Mentions(s, sub) {
      MentionsSome(s, sub);
    }
    if Contains(s, sub) {
      var i :| 0 <= i <= |s| - |sub| && OccursAt(s, sub, i);
      OccursMentions(s, sub, i);
    }
  }

  lemma {:induction false} MentionsSome(s: string, sub: string)
    requires Mentions(s, sub)
    ensures Contains(s, sub)
    decreases |s|
  {
    if s[..|sub|] == sub {
      ContainsAt(s, sub, 0);
    } else {
      MentionsSome(s[1..], sub);
      var i :| 0 <= i <= |s[1..]| - |sub| && OccursAt(s[1..], sub, i);
      assert s[i + 1..i + 1 + |sub|] == s[1..][i..i + |sub|];
      ContainsAt(s, sub, i + 1);
    }
  }

  lemma {:induction false} OccursMentions(s: string, sub: string, i: nat)
    requires OccursAt(s, sub, i)
    ensures Mentions(s, sub)
    decreases i
  {
    if i > 0 && s[..|sub|] != sub {
      assert s[1..][i - 1..i - 1 + |sub|] == s[i..i + |sub|];
      OccursMentions(s[1..], sub, i - 1);
    }
  }

  /** The banner reports success: its stripped text contains "has been added". */
  predicate Accepted(banner: string) {
    Mentions(Strip(banner), AddedText)
  }

  /** The two waits before the search result is read. */
  predicate BeforeSearch(w: Wait) {
    w == NameBox || w == SearchBox
  }

  /** The reload that starts every attempt but the first. */
  function Reload(i: nat): seq<Action> {
    if i != 0 then [Navigate] else []
  }

  /** The answer to the expiry question: the expiry date when the record
      expires, the no-expiry checkbox otherwise. */
  function ExpiryAnswer(cert: Record): Action {
    if cert.expires then FillExpiry(cert.expiryDate) else TickNoExpiry
  }

  /** The form steps of a record, in the order the loop body does them. */
  function FormSteps(cert: Record): seq<Action> {
    [OpenPicker, TypeName(cert.name), Choose, FillIssue(cert.issueDate), ExpiryAnswer(cert),
     FillUrl(cert.url), Submit]
  }

  /** How many form steps an attempt performs: it stops before the step whose
      wait times out, and after typing the name when the search finds nothing. */
  function Reached(o: Observation): (n: nat)
    ensures n <= 7
  {
    if o.timeout == Some(NameBox) then 0
    else if o.timeout == Some(SearchBox) then 1
    else if o.noMatch then 2
    else if o.timeout == Some(IssueBox) then 3
    else if o.timeout == Some(ExpiryBox) then 4
    else if o.timeout == Some(UrlBox) then 5
    else 7
  }

  /** How an attempt ends, checking the observations in the loop body's order. */
  function VerdictFor(o: Observation): Verdict {
    if o.timeout == Some(NameBox) || o.timeout == Some(SearchBox) then TimedOut
    else if o.noMatch then Failed
    else if o.timeout == Some(IssueBox) || o.timeout == Some(ExpiryBox) then TimedOut
    else if o.timeout == Some(UrlBox) || o.timeout == Some(Banner) then TimedOut
    else if Accepted(o.banner) then Added
    else Failed
  }

  /** The reload, if any, followed by the first k form steps, one after the other. */
  function Prefix(i: nat, cert: Record, k: nat): seq<Action>
    requires k <= 7
  {
    if k == 0 then Reload(i) else Prefix(i, cert, k - 1) + [FormSteps(cert)[k - 1]]
  }

  /** One attempt at the form for record number i. */
  function AttemptFor(i: nat, cert: Record, o: Observation): Attempt {
    Attempt(Prefix(i, cert, Reached(o)), VerdictFor(o))
  }

  /** The actions of an attempt are the reload and an initial run of the form steps. */
  lemma {:induction false} PrefixSteps(i: nat, cert: Record, k: nat)
    requires k <= 7
    ensures Prefix(i, cert, k) == Reload(i) + FormSteps(cert)[..k]
  {
    if k > 0 {
      PrefixSteps(i, cert, k - 1);
      assert FormSteps(cert)[..k] == FormSteps(cert)[..k - 1] + [FormSteps(cert)[k - 1]];
    }
  }

  /** The state the loop leaves: the failures, the actions, and whether a timeout
      ended the run early. */
  datatype RunState = RunState(failures: seq<Record>, log: seq<Action>, aborted: bool)

  /** The attempt each record would get when the loop reaches it. */
  function Attempts(certs: seq<Record>, obs: seq<Observation>): (atts: seq<Attempt>)
    requires |obs| == |certs|
    ensures |atts| == |certs| && forall i :: 0 <= i < |certs| ==> atts[i] == AttemptFor(i, certs[i], obs[i])
  {
    seq(|certs|, i requires 0 <= i < |certs| => AttemptFor(i, certs[i], obs[i]))
  }

  /** The loop over certs whose attempts are atts, one record after the other:
      a failed record is appended to the failures, and after a timeout nothing
      more happens. */
  function Fold(certs: seq<Record>, atts: seq<Attempt>): RunState
    requires |atts| == |certs|
    decreases |certs|
  {
    if certs == [] then RunState([], [], false)
    else
      var n := |certs| - 1;
      var s := Fold(certs[..n], atts[..n]);
      if s.aborted then s
      else
        RunState(s.failures + (if atts[n].verdict == Failed then [certs[n]] else []),
                 s.log + atts[n].actions, atts[n].verdict == TimedOut)
  }

  /** The replication loop over certs with observations obs. */
  function Replay(certs: seq<Record>, obs: seq<Observation>): RunState
    requires |obs| == |certs|
  {
    Fold(certs, Attempts(certs, obs))
  }

  /** The loop body's work on the form for record number i, in the source's
      order: reload, pick, search, then the dates and the URL. It returns the
      actions done and how the attempt ends. */
  method Fill(i: nat, cert: Record, o: Observation) returns (acts: seq<Action>, v: Verdict)
    ensures Attempt(acts, v) == AttemptFor(i, cert, o)
  {
    acts := if i != 0 then [Navigate] else [];
    v := TimedOut;
    if o.timeout == Some(NameBox) {
      return;
    }
    acts := acts + [OpenPicker];
    assert acts == Prefix(i, cert, 1);
    if o.timeout == Some(SearchBox) {
      return;
    }
    acts := acts + [TypeName(cert.name)];
    assert acts == Prefix(i, cert, 2);
    if o.noMatch {
      return acts, Failed;
    }
    acts := acts + [Choose];
    assert acts == Prefix(i, cert, 3);
    if o.timeout == Some(IssueBox) {
      return;
    }
    acts := acts + [FillIssue(cert.issueDate)];
    assert acts == Prefix(i, cert, 4);
    if o.timeout == Some(ExpiryBox) {
      return;
    }
    if cert.expires {
      acts := acts + [FillExpiry(cert.expiryDate)];
    } else {
      acts := acts + [TickNoExpiry];
    }
    assert acts == Prefix(i, cert, 5);
    if o.timeout == Some(UrlBox) {
      return;
    }
    acts := acts + [FillUrl(cert.url)];
    assert acts == Prefix(i, cert, 6);
    acts := acts + [Submit];
    assert acts == Prefix(i, cert, 7);
    if o.timeout == Some(Banner) {
      return;
    }
    if Accepted(o.banner) {
      v := Added;
    } else {
      v := Failed;
    }
  }

  /** The loop's state: the failures list of line 240 and the form actions so far. */
  class Replicator {
    var failures: seq<Record>
    var log: seq<Action>

    constructor ()
      ensures failures == [] && log == []
    {
      failures := [];
      log := [];
    }

    /** One pass of the loop body for record number i: the attempt, then its
        actions logged and, when it fails, the record appended to the failures. */
    method Enter(i: nat, cert: Record, o: Observation) returns (v: Verdict)
      modifies this
      ensures v == AttemptFor(i, cert, o).verdict
      ensures log == old(log) + AttemptFor(i, cert, o).actions
      ensures failures == old(failures) + (if v == Failed then [cert] else [])
    {
      var acts;
      acts, v := Fill(i, cert, o);
      log := log + acts;
      if v == Failed {
        failures := failures + [cert];
      }
    }
    /** The replication loop over full_certs, stopping at a timeout. */
    method Run(certs: seq<Record>, obs: seq<Observation>) returns (completed: bool)
      requires |obs| == |certs|
      modifies this
      ensures failures == Replay(certs, obs).failures
      ensures log == Replay(certs, obs).log
      ensures completed == !Replay(certs, obs).aborted
    {
      failures := [];
      log := [];
      ghost var atts := Attempts(certs, obs);
      var i := 0;
      while i < |certs|
        invariant 0 <= i <= |certs|
        invariant failures == Fold(certs[..i], atts[..i]).failures
        invariant log == Fold(certs[..i], atts[..i]).log
        invariant !Fold(certs[..i], atts[..i]).aborted
      {
        assert certs[..i + 1][..i] == certs[..i] && atts[..i + 1][..i] == atts[..i];
        var v := Enter(i, certs[i], obs[i]);
        if v == TimedOut {
          FoldStays(certs, atts, i + 1);
          return false;
        }
        i := i + 1;
      }
      assert certs[..i] == certs && atts[..i] == atts;
      completed := true;
    }
  }

  /** Once the run has stopped, the records after it change nothing. */
  lemma {:induction false} FoldStays(certs: seq<Record>, atts: seq<Attempt>, k: nat)
    requires |atts| == |certs| && 0 < k <= |certs|
    requires Fold(certs[..k], atts[..k]).aborted
    ensures Fold(certs, atts) == Fold(certs[..k], atts[..k])
    decreases |certs|
  {
    var n := |certs| - 1;
    if k <= n {
      assert certs[..n][..k] == certs[..k] && atts[..n][..k] == atts[..k];
      FoldStays(certs[..n], atts[..n], k);
    } else {
      assert certs[..k] == certs && atts[..k] == atts;
    }
  }

  // ---------------------------------------------------------------- one attempt

  /** The steps that fill the form after the certificate is chosen. */
  predicate FormStep(a: Action) {
    a.FillIssue? || a.FillExpiry? || a.TickNoExpiry? || a.FillUrl? || a.Submit?
  }

  /** The two ways of answering the expiry question. */
  predicate ExpiryStep(a: Action) {
    a.FillExpiry? || a.TickNoExpiry?
  }

  /** A record the search does not find is a failure, and none of its dates,
      expiry or URL is entered. */
  lemma NoMatchSkipsForm(i: nat, cert: Record, o: Observation)
    requires o.noMatch && (o.timeout.None? || !BeforeSearch(o.timeout.value))
    ensures AttemptFor(i, cert, o).verdict == Failed
    ensures forall k :: 0 <= k < |AttemptFor(i, cert, o).actions| ==> !FormStep(AttemptFor(i, cert, o).actions[k])
  {
    PrefixSteps(i, cert, 2);
    assert FormSteps(cert)[..2] == [OpenPicker, TypeName(cert.name)];
  }

  /** A found record whose attempt does not time out goes through every form step. */
  lemma FullAttempt(i: nat, cert: Record, o: Observation)
    requires !o.noMatch && AttemptFor(i, cert, o).verdict != TimedOut
    ensures AttemptFor(i, cert, o).actions == Reload(i) + FormSteps(cert)
  {
    PrefixSteps(i, cert, 7);
    assert FormSteps(cert)[..7] == FormSteps(cert);
  }

  /** A found record whose attempt completes gets exactly one expiry step, after
      the issue date: the expiry date when the record expires, the no-expiry
      checkbox otherwise. */
  lemma OneExpiryStep(i: nat, cert: Record, o: Observation)
    requires !o.noMatch && AttemptFor(i, cert, o).verdict != TimedOut
    ensures var acts := AttemptFor(i, cert, o).actions;
            var j := |Reload(i)| + 4;
            j < |acts| && acts[j] == (if cert.expires then FillExpiry(cert.expiryDate) else TickNoExpiry)
            && acts[j - 1] == FillIssue(cert.issueDate)
            && forall k :: 0 <= k < |acts| && k != j ==> !ExpiryStep(acts[k])
  {
    FullAttempt(i, cert, o);
    ExpiryIn(AttemptFor(i, cert, o).actions, i, cert);
  }

  lemma ReloadsOnly(i: nat)
    ensures forall k :: 0 <= k < |Reload(i)| ==> Reload(i)[k] == Navigate
  {
  }

  /** ExpiryAfter for a list of actions known to be the reload and the form steps. */
  lemma ExpiryIn(acts: seq<Action>, i: nat, cert: Record)
    requires acts == Reload(i) + FormSteps(cert)
    ensures var j := |Reload(i)| + 4;
            j < |acts| && acts[j] == (if cert.expires then FillExpiry(cert.expiryDate) else TickNoExpiry)
            && acts[j - 1] == FillIssue(cert.issueDate)
            && forall k :: 0 <= k < |acts| && k != j ==> !ExpiryStep(acts[k])
  {
    ReloadsOnly(i);
    ExpiryAfter(Reload(i), cert);
  }

  /** After reloads only, the form steps answer the expiry question once, right
      after the issue date. */
  lemma ExpiryAfter(pre: seq<Action>, cert: Record)
    requires forall k :: 0 <= k < |pre| ==> pre[k] == Navigate
    ensures var acts := pre + FormSteps(cert);
            var j := |pre| + 4;
            j < |acts| && acts[j] == (if cert.expires then FillExpiry(cert.expiryDate) else TickNoExpiry)
            && acts[j - 1] == FillIssue(cert.issueDate)
            && forall k :: 0 <= k < |acts| && k != j ==> !ExpiryStep(acts[k])
  {
    ExpiryOnce(cert);
    var acts := pre + FormSteps(cert);
    forall k | 0 <= k < |acts| && k != |pre| + 4
      ensures !ExpiryStep(acts[k])
    {
      if k >= |pre| {
        assert acts[k] == FormSteps(cert)[k - |pre|];
      }
    }
  }

  /** Among the form steps only the fifth answers the expiry question. */
  lemma ExpiryOnce(cert: Record)
    ensures forall m :: 0 <= m < 7 && m != 4 ==> !ExpiryStep(FormSteps(cert)[m])
    ensures ExpiryStep(FormSteps(cert)[4])
  {
  }

  /** How an attempt ends, read off the observation: a timeout ends the run when
      its wait is reached (the waits after the search only when the record is
      found); otherwise the record fails exactly when it is not found or the
      stripped banner lacks "has been added". */
  lemma AttemptVerdict(i: nat, cert: Record, o: Observation)
    ensures AttemptFor(i, cert, o).verdict == TimedOut
            <==> o.timeout.Some? && (BeforeSearch(o.timeout.value) || !o.noMatch)
    ensures AttemptFor(i, cert, o).verdict == Failed
            <==> (o.timeout.None? && (o.noMatch || !Accepted(o.banner)))
                 || (o.timeout.Some? && !BeforeSearch(o.timeout.value) && o.noMatch)
  {
    match o.timeout
    case None =>
    case Some(w) => assert w.NameBox? || w.SearchBox? || w.IssueBox? || w.ExpiryBox? || w.UrlBox? || w.Banner?;
  }

  /** The form is reloaded for every record except the first, and before anything else. */
  lemma NavigateFirst(i: nat, cert: Record, o: Observation)
    ensures Navigate in AttemptFor(i, cert, o).actions <==> i != 0
    ensures i != 0 ==> AttemptFor(i, cert, o).actions[0] == Navigate
  {
    PrefixSteps(i, cert, Reached(o));
    var rest := FormSteps(cert)[..Reached(o)];
    assert Navigate !in rest by {
      assert forall k :: 0 <= k < |rest| ==> rest[k] == FormSteps(cert)[k];
    }
  }

  /** A completed attempt on a found record types the record's own name, issue
      date and URL, and submits last: the record is entered as it is. */
  lemma EntersRecord(i: nat, cert: Record, o: Observation)
    requires !o.noMatch && AttemptFor(i, cert, o).verdict != TimedOut
    ensures var acts := AttemptFor(i, cert, o).actions;
            TypeName(cert.name) in acts && FillIssue(cert.issueDate) in acts
            && FillUrl(cert.url) in acts && acts[|acts| - 1] == Submit
  {
    FullAttempt(i, cert, o);
    EnteredAfter(Reload(i), cert);
  }

  /** After any prefix, the form steps type the record's name, issue date and URL
      and end with the submit. */
  lemma EnteredAfter(pre: seq<Action>, cert: Record)
    ensures var acts := pre + FormSteps(cert);
            TypeName(cert.name) in acts && FillIssue(cert.issueDate) in acts
            && FillUrl(cert.url) in acts && acts[|acts| - 1] == Submit
  {
    var acts := pre + FormSteps(cert);
    assert acts[|pre| + 1] == TypeName(cert.name);
    assert acts[|pre| + 3] == FillIssue(cert.issueDate);
    assert acts[|pre| + 5] == FillUrl(cert.url);
  }

  // ---------------------------------------------------------------- the run

  /** a is a subsequence of b: b with some elements left out, order kept. */
  predicate Subseq<T(==)>(a: seq<T>, b: seq<T>)
    decreases |b|
  {
    if a == [] then true
    else if b == [] then false
    else (a[|a| - 1] == b[|b| - 1] && Subseq(a[..|a| - 1], b[..|b| - 1])) || Subseq(a, b[..|b| - 1])
  }

  /** The failures are an in-order subsequence of the records. */
  lemma {:induction false} FoldSubseq(certs: seq<Record>, atts: seq<Attempt>)
    requires |atts| == |certs|
    ensures Subseq(Fold(certs, atts).failures, certs)
    decreases |certs|
  {
    if certs != [] {
      var n := |certs| - 1;
      var s := Fold(certs[..n], atts[..n]);
      FoldSubseq(certs[..n], atts[..n]);
      var f := Fold(certs, atts).failures;
      if f == s.failures {
        SubseqExtend(f, certs[..n], certs[n]);
        assert certs[..n] + [certs[n]] == certs;
      } else {
        assert f == s.failures + [certs[n]];
        assert f[..|f| - 1] == s.failures;
      }
    }
  }

  /** A subsequence of b is one of b + [x] as well. */
  lemma SubseqExtend<T>(a: seq<T>, b: seq<T>, x: T)
    requires Subseq(a, b)
    ensures Subseq(a, b + [x])
  {
    assert (b + [x])[..|b|] == b;
  }

  /** The run stops early exactly when some attempt times out. */
  lemma {:induction false} FoldAborted(certs: seq<Record>, atts: seq<Attempt>)
    requires |atts| == |certs|
    ensures Fold(certs, atts).aborted <==> exists i :: 0 <= i < |atts| && atts[i].verdict == TimedOut
    decreases |certs|
  {
    if certs != [] {
      var n := |certs| - 1;
      FoldAborted(certs[..n], atts[..n]);
      assert forall i :: 0 <= i < n ==> atts[..n][i] == atts[i];
    }
  }

  /** In a completed run, a record is among the failures exactly when its attempt
      fails. */
  lemma {:induction false} FoldFailures(certs: seq<Record>, atts: seq<Attempt>)
    requires |atts| == |certs| && !Fold(certs, atts).aborted
    ensures forall i :: 0 <= i < |certs| && atts[i].verdict == Failed ==> certs[i] in Fold(certs, atts).failures
    ensures forall x :: x in Fold(certs, atts).failures
              ==> exists i :: 0 <= i < |certs| && certs[i] == x && atts[i].verdict == Failed
    decreases |certs|
  {
    if certs != [] {
      var n := |certs| - 1;
      var s := Fold(certs[..n], atts[..n]);
      assert !s.aborted;
      FoldFailures(certs[..n], atts[..n]);
      assert forall i :: 0 <= i < n ==> certs[..n][i] == certs[i] && atts[..n][i] == atts[i];
    }
  }

  /** The records whose attempt fails, in order, read from the front: the
      reference the loop's failure list is checked against. */
  function FailedOnes(certs: seq<Record>, atts: seq<Attempt>): seq<Record>
    requires |atts| == |certs|
  {
    if certs == [] then [] else Own(certs[0], atts[0]) + FailedOnes(certs[1..], atts[1..])
  }

  /** What one record adds to the failures. */
  function Own(cert: Record, att: Attempt): seq<Record> {
    if att.verdict == Failed then [cert] else []
  }

  /** The head and tail of a + b for a non-empty a. */
  lemma ConcatFront<T>(a: seq<T>, b: seq<T>)
    requires a != []
    ensures (a + b)[0] == a[0] && (a + b)[1..] == a[1..] + b
  {
  }

  /** FailedOnes works piecewise over records and their attempts. */
  lemma {:induction false} FailedConcat(a: seq<Record>, x: seq<Attempt>, b: seq<Record>, y: seq<Attempt>)
    requires |x| == |a| && |y| == |b|
    ensures FailedOnes(a + b, x + y) == FailedOnes(a, x) + FailedOnes(b, y)
    decreases |a|
  {
    if a == [] {
      assert a + b == b && x + y == y;
    } else {
      ConcatFront(a, b);
      ConcatFront(x, y);
      FailedConcat(a[1..], x[1..], b, y);
    }
  }

  /** In a completed run the failures are exactly the failed records, in order
      and each as often as its attempts failed. */
  lemma {:induction false} FoldFiltered(certs: seq<Record>, atts: seq<Attempt>)
    requires |atts| == |certs| && !Fold(certs, atts).aborted
    ensures Fold(certs, atts).failures == FailedOnes(certs, atts)
    decreases |certs|
  {
    if certs != [] {
      var n := |certs| - 1;
      FoldLast(certs, atts);
      FoldFiltered(certs[..n], atts[..n]);
      FailedLast(certs, atts);
    }
  }

  /** The last step of a completed run: the run before it completed too. */
  lemma FoldLast(certs: seq<Record>, atts: seq<Attempt>)
    requires |atts| == |certs| && certs != [] && !Fold(certs, atts).aborted
    ensures var n := |certs| - 1;
      && !Fold(certs[..n], atts[..n]).aborted
      && Fold(certs, atts).failures == Fold(certs[..n], atts[..n]).failures + Own(certs[n], atts[n])
  {
  }

  /** FailedOnes read from the back. */
  lemma FailedLast(certs: seq<Record>, atts: seq<Attempt>)
    requires |atts| == |certs| && certs != []
    ensures var n := |certs| - 1;
      FailedOnes(certs, atts) == FailedOnes(certs[..n], atts[..n]) + Own(certs[n], atts[n])
  {
    var n := |certs| - 1;
    FailedConcat(certs[..n], atts[..n], [certs[n]], [atts[n]]);
    SplitLast(certs);
    SplitLast(atts);
    FailedOne(certs[n], atts[n]);
  }

  lemma FailedOne(cert: Record, att: Attempt)
    ensures FailedOnes([cert], [att]) == Own(cert, att)
  {
    assert [cert][1..] == [] && [att][1..] == [];
  }

  /** A non-empty sequence is its front followed by its last element. */
  lemma SplitLast<T>(s: seq<T>)
    requires s != []
    ensures s[..|s| - 1] + [s[|s| - 1]] == s
  {
  }

  /** The run over full_certs: its failures are an in-order subsequence of the
      records; it stops early exactly when an attempt times out; and when it
      completes, the failures are exactly the records whose attempt failed. */
  lemma ReplayFailures(certs: seq<Record>, obs: seq<Observation>)
    requires |obs| == |certs|
    ensures Subseq(Replay(certs, obs).failures, certs)
    ensures Replay(certs, obs).aborted
            <==> exists i :: 0 <= i < |certs| && AttemptFor(i, certs[i], obs[i]).verdict == TimedOut
    ensures !Replay(certs, obs).aborted ==>
              forall x :: x in Replay(certs, obs).failures
                <==> exists i :: 0 <= i < |certs| && certs[i] == x && AttemptFor(i, certs[i], obs[i]).verdict == Failed
    ensures !Replay(certs, obs).aborted ==> Replay(certs, obs).failures == FailedOnes(certs, Attempts(certs, obs))
  {
    var atts := Attempts(certs, obs);
    FoldSubseq(certs, atts);
    FoldAborted(certs, atts);
    if !Replay(certs, obs).aborted {
      FoldFailures(certs, atts);
      FoldFiltered(certs, atts);
    }
  }

  /** The names listed at the end of the run (line 291). */
  function FailureNames(fs: seq<Record>): (names: seq<string>)
    ensures |names| == |fs|
    ensures forall k :: 0 <= k < |fs| ==> names[k] == fs[k].name
  {
    if fs == [] then [] else FailureNames(fs[..|fs| - 1]) + [fs[|fs| - 1].name]
  }

  /** The listed names are, in order, names of the records handled. */
  lemma {:induction false} NamesSubseq(fs: seq<Record>, certs: seq<Record>)
    requires Subseq(fs, certs)
    ensures Subseq(FailureNames(fs), FailureNames(certs))
    decreases |certs|
  {
    if fs != [] {
      var n := |certs| - 1;
      if fs[|fs| - 1] == certs[n] && Subseq(fs[..|fs| - 1], certs[..n]) {
        NamesSubseq(fs[..|fs| - 1], certs[..n]);
      } else {
        NamesSubseq(fs, certs[..n]);
        SubseqExtend(FailureNames(fs), FailureNames(certs[..n]), certs[n].name);
      }
    }
  }
}
