# cert_filler in Dafny

A model of the core of `cert_filler.py`. The script reads the certifications listed
on a LinkedIn profile and enters them one by one into the BSC certificate claim form.
The model covers two layers.

- **The three normalisers.**
  - `bsc_fmt_cert` removes a fixed, ordered list of phrases from a certificate title, turns the en dash into `-` and collapses whitespace (`Normalize.FmtCert`).
  - `bsc_fmt_dates` turns an "Issued Mon YYYY · Expires Mon YYYY" line into `MM01YYYY` codes and an expiry flag (`Normalize.FmtDates`).
  - `bsc_fmt_url` keeps the scheme, authority and path of a credential link and deletes the `linked_in_profile` token (`Normalize.FmtUrl`). It rests on a model of the two functions of Python's `urllib.parse` that it calls, `urlsplit` and `urlunsplit`, as CPython 3.12 defines them (module `UrlParse`).
- **The two batch loops, with the browser abstracted.**
  - The extraction loop (`Extraction.Extract`) reads from each listing entry only what the loop looks at: the name span, the "Issued" line, and the link element with its anchor.
  - The replication loop (`Replication.Replicator.Run`) reads per record what the browser shows: which wait times out, if any; whether the search shows "no results"; and the banner text. It writes the form actions it performs to a log, and the records that fail to the `failures` list.

The pieces of Python's `str` that the normalisers use are in module `Text`:
`strip`, `replace`, `split()` with `" ".join`, `split(sep)` and `in`.

Modules, one per file:

| file | module | what |
|---|---|---|
| wrappers.dfy | Wrappers | `Option` and `Result` |
| text.dfy | Text | the `str` operations |
| urlparse.dfy | UrlParse | `urlsplit` and `urlunsplit` on `str` links |
| normalize.dfy | Normalize | `bsc_fmt_cert`, `bsc_fmt_dates`, `bsc_fmt_url` |
| normalize_examples.dfy | NormalizeExamples | worked titles, date lines and links, including the inputs that show what the code does not promise |
| extraction.dfy | Extraction | the extraction loop and its records |
| replication.dfy | Replication | the replication loop, the `failures` list, the final name list |

### Where the code behaves unexpectedly

- **Names are not idempotent.** `bsc_fmt_cert` is not idempotent, and a removed phrase can come back. Deleting the inner "Google" of "GoogGooglele" leaves "Google", which a second call then removes (`NormalizeExamples.CertNotIdempotent`). "AWcertS" becomes "AWS" (`NormalizeExamples.CertAwcerts`).
- **Links are not idempotent.** The same is true of the token removal in `bsc_fmt_url` (`NormalizeExamples.UrlNotIdempotent`).
- **Names and links can be empty.** A title that is only a phrase gives the empty name (`NormalizeExamples.CertAws`, `NormalizeExamples.CertGoogle`). A link that is only the token gives the empty link.
- **An unknown month stops the whole run.** `month_dict[...]` raises `KeyError` before the link element is looked up. So an unknown month stops the whole extraction, even for an entry without a link (`Extraction.UnknownMonthAborts`); the entry is not dropped. The other lookups the loop does not guard also stop the run: the name span, the "Issued" line and the anchor.
- **A timeout stops the whole run.** Timeouts inside the replication loop are not caught, so a timeout ends the run rather than failing one record (`Replication.Verdict.TimedOut`).
- **A link with one kind of square bracket in its authority stops the whole run.** `urlsplit` raises `ValueError("Invalid IPv6 URL")` for it, and line 201 does not catch it (`Extraction.EntryError.BadUrl`, `NormalizeExamples.UrlBracketExample`).
- **The cleaned link can be longer than the link.** `urlunsplit` writes `//` after a scheme such as `https` even when the authority is empty, and puts a `/` before a path that lacks one: "https:example.com/cert" becomes "https:///example.com/cert" (`NormalizeExamples.UrlAddsExample`). For other schemes, or without a scheme, an empty authority is dropped: "foo:///x" becomes "foo:/x" and "///x" becomes "/x".

## Model

Defining functions that carry no contract of their own (`UrlParse.UrlSplit`, `Extraction.Gather`, `Extraction.Collected`, `Extraction.Picked`, `Replication.Fold`, `Replication.Replay`, `Replication.AttemptFor`, `Replication.Accepted`, `Replication.FailedOnes`) are described by the rows whose contracts are stated against them: `Extraction.Extract` against `Collected` and `Gather`, `Replication.Replicator.Run` against `Replay`, `Replication.Fill` against `AttemptFor`. One-step unfolding lemmas used inside proofs have no row.

| member | source | states |
|---|---|---|
| Text.Strip | cert_filler.py:97 | `strip()` returns a trimmed slice of its input; only whitespace is cut off before it and after it; a string that is already trimmed comes back unchanged |
| Text.StripChars | cert_filler.py:97 | `strip()` never lengthens a string and adds no character |
| Text.StripSpaceFront | cert_filler.py:97 | a leading space makes no difference to `strip()` |
| Text.StripPadded | cert_filler.py:119-120 | whitespace padding around a trimmed string is removed exactly |
| Text.Replace | cert_filler.py:97 | `replace` never lengthens a string when the replacement is no longer than the pattern, keeps the length when both have the same length, introduces only characters of the input or the replacement, and leaves no trace of a one-character pattern that the replacement does not contain |
| Text.ReplaceAbsent | cert_filler.py:97 | `replace` leaves alone a string in which the pattern cannot start |
| Text.ReplaceSkip | cert_filler.py:97 | a prefix in which the pattern cannot start passes through `replace` unchanged |
| Text.ReplaceNear | cert_filler.py:97 | a near miss of the pattern's length is kept whole |
| Text.ReplaceSplit | cert_filler.py:97 | `replace` distributes over a cut before a character the pattern does not contain |
| Text.ReplaceWords | cert_filler.py:97 | `replace` with a pattern without spaces works word by word |
| Text.Collapse | cert_filler.py:108 | `" ".join(s.split())` is well spaced (trimmed, every whitespace a single `' '` between words), no longer than `s`, and adds no character other than `' '` |
| Text.WordsAreWords | cert_filler.py:108 | `split()` yields non-empty words without whitespace |
| Text.JoinWords | cert_filler.py:108 | joining such words with single spaces is well spaced |
| Text.CollapseWellSpaced | cert_filler.py:108 | collapsing text that is already well spaced gives it back |
| Text.CollapseLength | cert_filler.py:108 | the collapsed text is no longer than the input |
| Text.CollapseChars | cert_filler.py:108 | the collapsed text holds only `' '` and characters of the input |
| Text.SplitOn | cert_filler.py:117 | `split(sep)` gives at least one piece, exactly one when `sep` is absent, and no piece contains `sep` |
| Text.SplitOnJoinOn | cert_filler.py:117 | joining the pieces of `split(sep)` with `sep` gives the string back |
| Text.JoinOnSplitOn | cert_filler.py:117 | splitting pieces joined with `sep` gives the pieces back |
| Text.SplitOnAbsent | cert_filler.py:117-118 | without the separator, `split` gives the string itself |
| Text.SplitOnFirst | cert_filler.py:123-124 | the first piece is the text before the first separator |
| UrlParse.LStripC0 | cert_filler.py:139 | `urlsplit` strips the C0 controls and spaces from the front: the result is a suffix of the link that does not start with one |
| UrlParse.Sanitize | cert_filler.py:139 | after the front is stripped, every tab, carriage return and line feed is deleted: the result holds none, is no longer than the link and adds no character |
| UrlParse.CleanSanitize | cert_filler.py:139 | a link that needs no clean-up is left as it is |
| UrlParse.Lower | cert_filler.py:139 | the scheme is lower-cased: same length, no capital left, still a scheme, unchanged when already lower case |
| UrlParse.SplitScheme | cert_filler.py:139 | the scheme is the lower-cased text before the first `:` when it is a letter followed by scheme characters, and the rest follows that `:`; otherwise there is no scheme and the rest is the whole link |
| UrlParse.SchemeRead | cert_filler.py:139 | a scheme and `:` are read back from the front of any link |
| UrlParse.NoSchemeBefore | cert_filler.py:139 | a link starting with `/`, `?` or `#` has no scheme |
| UrlParse.SplitNetloc | cert_filler.py:139 | after a leading `//` the authority runs up to the first `/`, `?` or `#`; without `//` there is no authority |
| UrlParse.NetlocRead | cert_filler.py:139 | an authority free of `/?#` is read back from `//`, the authority and what follows |
| UrlParse.SplitTail | cert_filler.py:139 | the path is the text before the first `?` or `#`; the query holds no `#` |
| UrlParse.TailRead | cert_filler.py:139 | path, query and fragment are read back from the text that writes them |
| UrlParse.SplitClean | cert_filler.py:139 | `urlsplit` fails exactly when its authority holds one kind of square bracket only, with that authority; otherwise its five components have `urlsplit`'s shape |
| UrlParse.UrlSplitFails | cert_filler.py:139 | the same for `urlsplit` on the raw link, after the clean-up |
| UrlParse.Rooted | cert_filler.py:140 | the path written after an authority starts with `/` and gains at most that one character |
| UrlParse.HeadText | cert_filler.py:140 | what `urlunsplit` writes from scheme, authority and path is at most the scheme, `:`, `//`, a `/`, the authority and the path; with no scheme and no authority written it is the path |
| UrlParse.Unsplit | cert_filler.py:140 | `urlunsplit` adds at most six characters to its components |
| UrlParse.Kept | cert_filler.py:140 | the components handed back to `urlunsplit` have an empty query and fragment, and `urlunsplit` writes them as scheme, authority and path only |
| UrlParse.HeadWritten | cert_filler.py:140 | with a non-empty authority, or a scheme that uses one and a path not starting with `//`, `urlunsplit` writes the scheme, `://`, the authority and the rooted path |
| UrlParse.HeadAdded | cert_filler.py:140 | an empty authority after such a scheme is written as `//` |
| UrlParse.HeadDropped | cert_filler.py:140 | an empty authority after any other scheme, or before a path starting with `//`, is not written |
| UrlParse.UnsplitSplit | cert_filler.py:139-140 | `urlsplit` reads back exactly the components `urlunsplit` wrote, when they are in the form `urlsplit` gives and need no clean-up |
| UrlParse.HeadDecides | cert_filler.py:139-140 | `urlsplit` reads scheme, authority and path, and raises its bracket error, from the text before the first `?` or `#` alone |
| UrlParse.SplitIgnoresTail | cert_filler.py:139-140 | whatever query and fragment follow, the link is refused or accepted alike and the kept components are the same |
| UrlParse.HeadTextFacts | cert_filler.py:139-140 | what `urlunsplit` writes from the kept components holds no `?`, `#` or line break and is at most three characters longer than the link |
| UrlParse.SplitWithNetloc | cert_filler.py:139 | a scheme, `//`, an authority and a rooted path split into the lower-cased scheme, that authority and that path, or fail on an unbalanced authority |
| UrlParse.SplitNetlocOnly | cert_filler.py:139 | the same without a scheme |
| UrlParse.SplitSchemeOnly | cert_filler.py:139 | a scheme followed by a path not starting with `//` has no authority |
| UrlParse.SplitPathOnly | cert_filler.py:139 | text without `:`, `?`, `#` or a leading `//` is all path |
| Normalize.RemovePhrases | cert_filler.py:95-97 | the removal loop never lengthens the title, adds no character, and leaves it trimmed |
| Normalize.ColonRemoved | cert_filler.py:95-97 | with `":"` first in the list no colon survives the loop |
| Normalize.RemovePhrasesAbsent | cert_filler.py:96-97 | a trimmed title in which no phrase can start passes the loop unchanged |
| Normalize.Tidy | cert_filler.py:96-105 | after the removals and the dash replacement no `:` and no en dash is left, and the text is no longer than the title |
| Normalize.FmtCert | cert_filler.py:92-108 | the name is well spaced, has no `:` and no en dash, and is never longer than the raw title |
| Normalize.FmtDate | cert_filler.py:123-124 | with the clause split on single spaces: it converts exactly when the first token is in the month table and a second token exists; the date is that month's number, `01`, then the second token; an unknown first token is the `KeyError`, reported with that token before a missing second token; a missing second token is the `IndexError` |
| Normalize.FmtDates | cert_filler.py:110-135 | on success the flag is true exactly when the line holds `·`, the expiry is present exactly when the flag is set, and both dates have the `MM01` shape |
| Normalize.ClauseDate | cert_filler.py:123-125 | "Mon YYYY" converts to the month number, `01` and the year |
| Normalize.ClauseUnknown | cert_filler.py:123 | a clause whose first token is not a month fails on that token |
| Normalize.IssueText | cert_filler.py:119 | removing "Issued" and stripping leaves the clause body |
| Normalize.ExpiryText | cert_filler.py:120 | "Expires" and "Expired" are removed alike, leaving the clause body |
| Normalize.LineSplit | cert_filler.py:117 | a two-clause line splits at its middle dot into the two clauses |
| Normalize.DatesIssueOnly | cert_filler.py:117-133 | "Issued Mon YYYY" gives `[False, MM01YYYY, None]` |
| Normalize.DatesWithExpiry | cert_filler.py:117-131 | "Issued Mon YYYY · Expires/Expired Mon YYYY" gives `[True, MM01YYYY, MM01YYYY]` |
| Normalize.DatesUnknownMonth | cert_filler.py:123 | an issue month outside the table fails with that token |
| Normalize.FmtUrl | cert_filler.py:137-142 | the link is refused exactly when `urlsplit` refuses its authority, with that authority; the cleaned link has no `?`, `#` or line break and is at most three characters longer than the link |
| Normalize.UrlIgnoresQuery | cert_filler.py:139-141 | a query or fragment appended to a link never changes the cleaned link, nor whether the link is refused |
| Normalize.UrlKeepsNetloc | cert_filler.py:139-142 | a link with a scheme, `//`, an authority that is written back and a rooted path keeps all three, the scheme in lower case; an unbalanced authority is refused |
| Normalize.UrlAddsNetloc | cert_filler.py:139-142 | a scheme that uses an authority, without `//`, gains `//` and a rooted path |
| Normalize.UrlDropsNetloc | cert_filler.py:139-142 | an empty authority is lost after a scheme that does not use one, or before a path starting with `//` |
| Normalize.UrlWithoutScheme | cert_filler.py:139-142 | without a scheme, a non-empty authority is kept and an empty one is lost |
| Normalize.UrlPlain | cert_filler.py:139-141 | text without `:`, `?`, `#` or a leading `//` only loses the token and its outer whitespace |
| NormalizeExamples.CertArchitect | cert_filler.py:95-108 | "AWS Certified Solutions Architect – Associate" gives "Solutions Architect - Associate" |
| NormalizeExamples.GoogleCloudFirst | cert_filler.py:95-97 | "Google Cloud" is removed whole before "Google" is reached |
| NormalizeExamples.GoogleAloneKeepsCloud | cert_filler.py:95-97 | removing "Google" first would have left "Cloud" behind |
| NormalizeExamples.CertGoogleCloud | cert_filler.py:95-108 | "Google Cloud Digital Leader" gives "Digital Leader" |
| NormalizeExamples.CertificationLast | cert_filler.py:95-97 | lowercase "cert", "Certified" and "CKA" miss "Certification"; only the last phrase removes it |
| NormalizeExamples.CertTerraform | cert_filler.py:95-108 | "Terraform Certification" gives "Terraform" |
| NormalizeExamples.CertGoogGooglele | cert_filler.py:96-97 | "GoogGooglele" gives "Google": the removal creates the phrase it removes |
| NormalizeExamples.CertNotIdempotent | cert_filler.py:92-108 | a second call on the name of "GoogGooglele" changes it |
| NormalizeExamples.CertAwcerts | cert_filler.py:96-97 | "AWcertS" gives "AWS": a vendor name survives |
| NormalizeExamples.CertAws | cert_filler.py:92-108 | "AWS" gives the empty name |
| NormalizeExamples.CertGoogle | cert_filler.py:92-108 | "Google" gives the empty name |
| NormalizeExamples.DatesJan2022Mar2024 | cert_filler.py:110-135 | "Issued Jan 2022 · Expires Mar 2024" gives `[True, "01012022", "03012024"]` |
| NormalizeExamples.DatesJun2021 | cert_filler.py:110-135 | "Issued Jun 2021" gives `[False, "06012021", None]` |
| NormalizeExamples.DatesJanuary | cert_filler.py:123 | "Issued January 2022" fails on the unknown month "January" |
| NormalizeExamples.UrlExample | cert_filler.py:137-142 | "https://example.com/cert?linked_in_profile=abc&x=1" gives "https://example.com/cert" |
| NormalizeExamples.UrlAddsExample | cert_filler.py:139-142 | "https:example.com/cert" gives the longer "https:///example.com/cert" |
| NormalizeExamples.UrlDropsExample | cert_filler.py:139-142 | "foo:///x" gives "foo:/x" |
| NormalizeExamples.UrlShiftsExample | cert_filler.py:139-142 | "https:////x" gives "https://x", whose authority is the first path segment |
| NormalizeExamples.UrlNoSchemeExample | cert_filler.py:139-142 | "///x" gives "/x" |
| NormalizeExamples.UrlBracketExample | cert_filler.py:139 | "https://[::1/cert" is refused with the authority "[::1" |
| NormalizeExamples.UrlNotIdempotent | cert_filler.py:141 | removing the token can create it, and a second call then changes the link |
| Extraction.Step | cert_filler.py:190-201 | the loop body on one entry: when it succeeds, it skips exactly the entries without a link element, and a record it builds is well formed (well-spaced name without `:` or en dash; expiry present exactly when the flag is set; `MM01` dates; link without `?` or `#`); a date failure is the failure of `bsc_fmt_dates` on the entry's line, and a link failure that of `bsc_fmt_url` on the anchor's text |
| Extraction.Convert | cert_filler.py:190-201 | the loop body, in the source's order, computes the outcome `Step` specifies |
| Extraction.Extract | cert_filler.py:187-216 | the loop computes `Collected`: the records appended one after the other, and the first failing entry ends the run |
| Extraction.GatherStops | cert_filler.py:190-201 | an entry that fails ends the run with its index and cause |
| Extraction.PickedConcat | cert_filler.py:188 | the records of two runs of entries are those of each run, in turn |
| Extraction.GatherOk | cert_filler.py:188-216 | the run succeeds exactly when every entry's outcome is a success |
| Extraction.GatherFirstError | cert_filler.py:188-201 | a failed run names the first failing entry and its cause |
| Extraction.GatherPicked | cert_filler.py:188-216 | a successful run holds exactly the records read from the front |
| Extraction.PickedLength | cert_filler.py:194-198 | one record is kept per outcome that does not skip |
| Extraction.PickedFrom | cert_filler.py:210-216 | every record kept comes from an entry that built it |
| Extraction.SkippedLinkless | cert_filler.py:194-198 | the skipped entries are the linkless ones |
| Extraction.ExtractSucceeds | cert_filler.py:187-216 | extraction succeeds exactly when every entry converts |
| Extraction.ExtractRecords | cert_filler.py:187-216 | a successful run holds, in listing order, one record per linked entry: N minus the linkless entries |
| Extraction.ExtractWellFormed | cert_filler.py:187-216 | every record of a successful run is well formed; in particular expires and expiry date agree |
| Extraction.ExtractFails | cert_filler.py:188-201 | a failed run stops at the first entry that does not convert, with its cause, and every entry before it converts |
| Extraction.ExtractOrder | cert_filler.py:188-216 | the records of a listing in two parts are those of each part in turn |
| Extraction.UnknownMonthAborts | cert_filler.py:190-198 | an unknown month stops the run even for an entry without a link element |
| Replication.MentionsContains | cert_filler.py:287 | the banner test is Python's `in`: the text occurs somewhere in the stripped banner |
| Replication.PrefixSteps | cert_filler.py:244-283 | an attempt's actions are the reload, if any, followed by an initial run of the form steps in order |
| Replication.Fill | cert_filler.py:242-289 | the loop body's form work for one record, step by step in the source's order, ends as `AttemptFor` says: it stops at the wait that times out, after the name when there is no match, and otherwise ends added or failed by the banner |
| Replication.Replicator.constructor | cert_filler.py:240 | the failures list starts empty |
| Replication.Replicator.Enter | cert_filler.py:242-289 | one pass of the loop body: its actions are logged and a failed record is appended to the failures; nothing else changes |
| Replication.Replicator.Run | cert_filler.py:240-289 | the loop leaves exactly the failures and the actions of `Replay` and reports whether it ran to the end |
| Replication.FoldStays | cert_filler.py:259-284 | after a timeout the records that follow change nothing |
| Replication.NoMatchSkipsForm | cert_filler.py:263-272 | a record the search does not find is a failure and gets no date, expiry, URL or submit step |
| Replication.FullAttempt | cert_filler.py:275-283 | a found record whose attempt does not time out goes through every form step |
| Replication.OneExpiryStep | cert_filler.py:276-280 | such a record gets exactly one expiry step, right after the issue date: the expiry date when it expires, the no-expiry checkbox otherwise |
| Replication.ExpiryAfter | cert_filler.py:276-280 | after reloads only, the form steps answer the expiry question once, after the issue date |
| Replication.ExpiryOnce | cert_filler.py:277-280 | only the fifth form step answers the expiry question |
| Replication.AttemptVerdict | cert_filler.py:259-289 | an attempt times out exactly when its wait is reached (the waits after the search only for a found record); otherwise it fails exactly when the record is not found or the stripped banner lacks "has been added" |
| Replication.NavigateFirst | cert_filler.py:244-245 | the form is reloaded for every record except the first, and before anything else |
| Replication.EntersRecord | cert_filler.py:262-283 | a completed attempt types the record's own name, issue date and URL, and submits last |
| Replication.FoldSubseq | cert_filler.py:269-289 | the failures are an in-order subsequence of the records |
| Replication.SubseqExtend | cert_filler.py:269-289 | a subsequence stays one when the records grow |
| Replication.FoldAborted | cert_filler.py:259-284 | the run stops early exactly when some attempt times out |
| Replication.FoldFailures | cert_filler.py:269-289 | in a completed run, a record is among the failures exactly when its attempt fails |
| Replication.FoldFiltered | cert_filler.py:269-289 | in a completed run the failure list equals the front-to-back filter of the records whose attempt failed, so order and multiplicity are fixed, not only membership |
| Replication.ReplayFailures | cert_filler.py:240-289 | the run's failures are an in-order subsequence of the records; it stops early exactly when an attempt times out; when it completes, the failure list is exactly the records whose attempt failed, in order, each once per failed attempt (`FailedOnes`) |
| Replication.FailureNames | cert_filler.py:291 | the final report lists the failures' names, one per failure, in the order of the failures |
| Replication.NamesSubseq | cert_filler.py:291 | the listed names are, in order, names of the records handled |

## Left out

- The browser (Selenium, Chrome, `init_driver`, `find_element_by_xpath`, `fill_textbox`, `fill_textbox_immediate`) is an external collaborator. The loops take what it shows as input (`Extraction.Entry`, `Replication.Observation`), and the replication loop's effect on it is the action log.
- `wait_for_page_load` and `scroll_to_bottom` are unbounded polling loops over browser state and `sleep`. The model assumes they return.
- The LinkedIn and BSC logins, the MFA step, `input`/`getpass` prompts and every `print` are interactive I/O. The final report of line 291 is modelled as the name list `Replication.FailureNames`.
- Typing delays drawn from `random` (line 61) are left out: they change only timing.
- Two checks `urlsplit` makes on the authority are not modelled: the validation of a bracketed host as an IPv6 or IPvFuture address, and the NFKC check of a non-ASCII authority. Both raise `ValueError`.
- Normalize.FmtUrl: refuses only an authority with one kind of square bracket. A link that the two checks above refuse is accepted by the model. The model does not include Python's `ipaddress` parser or Unicode normalisation, which those checks rely on.
- `href` returning `None` (an anchor without the attribute) is not modelled: the anchor's text is a string.
- The no-expiry checkbox is found without a wait (line 280); a missing checkbox raises an uncaught `NoSuchElementException`. The model folds it into the `ExpiryBox` timeout, which likewise ends the run.
- Python strings are sequences of code points; `IsSpace` lists the code points `str.isspace` accepts. Dafny's `char` cannot hold a surrogate code point, so lone surrogates are out of scope.
- Normalize.FmtCert: idempotence is not stated, because the code does not have it (`NormalizeExamples.CertNotIdempotent`).
- Normalize.FmtUrl: idempotence is not stated, because the code does not have it (`NormalizeExamples.UrlNotIdempotent`).
