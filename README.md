# Bulk mailer dispatch core, modelled in Dafny

This project models the core of a Streamlit bulk mailer (`app.py`). The
core has four parts.

- **Address helpers.** `extract_email` takes the text inside the first
  `<...>` of an address, or the whole address, and strips it.
  `looks_like_gmail` is a case-folded suffix test.
- **Template guard.** `render_template` returns `None` for a missing or
  empty template. Otherwise it calls the template engine.
- **`SMTPSession`.** This is a context manager.
  - Entering it connects: implicit TLS, or a plain connect, EHLO and
    optional STARTTLS. It then logs in when both credentials are
    non-empty.
  - `send` builds a `multipart/mixed` message and transmits it to one
    recipient. The message has the From/To/Subject headers, the extra
    headers whose value is non-empty, one `multipart/alternative` part
    with the plain and HTML bodies, and one part per attachment. A
    missing or slash-less MIME type falls back to
    `application/octet-stream`.
  - Leaving the session sends QUIT and swallows any error from it.
- **`do_send`.** It reads the port with `int(...strip())`, gathers the
  uploads as attachments, and then handles the rows in order.
  - A row whose stripped `email` cell is empty counts as failed.
  - Otherwise the subject, HTML and text templates are rendered.
  - A dry run counts the row as sent without any network step.
  - Otherwise a fresh session makes exactly one attempt. Success counts
    as sent. An exception counts as failed and adds an error row.
  - A template error is raised outside the `try` and ends the whole run.

The Python parts the code relies on are modelled explicitly: `str.strip`,
ASCII `lower`, `endswith`, the leftmost match of `re.search(r"<([^>]+)>")`,
base-10 `int()` and truthiness. The template engine, the SMTP server and
the network are oracles. The engine is a function from a template and a
context to a rendered text or an error. The network is a function from a
protocol step to success or an error message, chosen per row. Every
`smtplib` call the code makes and every engine call is recorded in a
trace. The code's
behaviour is then stated over that trace and over the counters.

Modules, one file each: `Wrappers` (Option/Result), `Text`, `Addresses`,
`Templates`, `PyInt`, `Mime`, `Smtp`, `Dispatch`.

Facts about the code that a reader might not expect:

- **One attempt per recipient.** Each addressed row opens its own
  session and makes one attempt. `backoff` is defined and never called.
  `batch_size` and `max_retries` are read from the sidebar and never
  used. `Dispatch.PacingSettingsIgnored` proves that they do not affect
  the run.
- **Template errors end the run.** The templates are rendered outside
  the `try`, so a template error escapes `do_send` and no later row is
  handled. A failed send never ends the run. See
  `Dispatch.RunAbortsOnRenderError` and `Dispatch.SendFailuresNeverAbort`.
- **Empty address.** A row whose stripped address is empty only
  increments `failed_rows`. It adds no error row. See `Dispatch.RunLedger`.
- **No QUIT after a failed connect.** `__exit__` does not run when
  `__enter__` raises, as Python's `with` statement requires, so no QUIT is
  sent then. See `Smtp.SessionAttemptOutcome`.
- **No extra headers.** `do_send` passes an empty header dictionary to
  `send`.
- **Any integer port.** The port is any integer `int()` reads, negative
  ones included. No range check follows.
- **No attachments in practice.** `do_send` reads its attachments from
  `st.session_state.get("uploads")` (app.py:271), but nothing in the
  app stores anything under that key. The app therefore always sends
  without attachments, and `Dispatch.Attachments` and
  `Dispatch.GatherAttachments` are given an empty upload list. The model
  still covers any list.
- **Indentation of `app.py:176`.** The line `html_tpl = st.text_area(`
  is indented by three spaces inside a block indented by four, so Python
  refuses the file with an `IndentationError`. The model describes the
  functions as written, assuming that line is indented like its
  neighbours.

## Model

| member | source | states |
|---|---|---|
| Text.IsSpace | app.py:38 | space, tab, newline and carriage return are whitespace to `strip()`; digits, ASCII letters, `<`, `>` and `@` are not |
| Text.SkipSpace | app.py:38 | where `lstrip` starts: only whitespace is skipped, and it stops at the first non-space character |
| Text.TrimEnd | app.py:38 | where `rstrip` ends: only trailing whitespace is dropped, and the kept part ends with a non-space character |
| Text.Strip | app.py:38 | `strip()` gives a string with no leading or trailing whitespace that is no longer than the input |
| Text.StripUnique | app.py:38 | stripping any whitespace-only prefix and suffix off a trimmed string gives back exactly that string |
| Text.StripTrimmed | app.py:257 | a string without surrounding whitespace is its own `strip()` |
| Text.StripKeeps | app.py:257 | every non-space character survives `strip()`, shifted left by the length of the leading whitespace |
| Text.StripChars | app.py:38 | every character of `strip()`'s result occurs in the input |
| Text.EndsWith | app.py:42 | `a.endswith(suffix)` holds exactly when `a` is some string followed by `suffix`, and never when the suffix is longer |
| Text.LowerChar | app.py:41 | each ASCII capital becomes its own small letter (the same distance from `a` as the capital is from `A`); every other character is kept |
| Text.Lower | app.py:41 | `lower()` keeps the length and lowers each character on its own, ASCII letters only |
| Text.LowerIdempotent | app.py:41 | lowering twice is lowering once |
| Addresses.CloseFrom | app.py:37 | where `[^>]+` stops: the first `>` at or after a position, with no `>` before it |
| Addresses.MatchAtIff | app.py:37 | the pattern `<([^>]+)>` matches at `i` exactly when a match can start there, and it then ends at the first `>` after the `<` |
| Addresses.SearchFrom | app.py:37 | `re.search` finds the leftmost position where the pattern matches, or reports that no position matches |
| Addresses.SearchFindsFirst | app.py:37 | the search returns the leftmost match and its end |
| Addresses.ExtractEmail | app.py:34-38 | the result has no surrounding whitespace and is no longer than the address, and it is `""` for a missing or empty address |
| Addresses.ExtractEmailFirstMatch | app.py:37-38 | when the leftmost match is `s[i..j+1]`, the result is its group stripped, and it contains no `>` |
| Addresses.GroupHasNoClose | app.py:37 | a matched group holds no `>`, even after stripping |
| Addresses.ExtractEmailNoMatch | app.py:38 | without a match, the result is the whole address stripped |
| Addresses.ExtractEmailDisplayName | app.py:34-38 | `"A <a@b> "` yields `"a@b"` |
| Addresses.LooksLikeGmail | app.py:40-42 | a missing or empty address is never Gmail |
| Addresses.LooksLikeGmailTail | app.py:40-42 | the answer is true exactly when the lowered last 10 characters are `@gmail.com` or the lowered last 15 are `@googlemail.com` |
| Addresses.LooksLikeGmailCaseInsensitive | app.py:41 | an address and its lowered form get the same answer |
| Addresses.LooksLikeGmailAccepts | app.py:42 | any local part followed by either domain, in any case, is accepted |
| Addresses.LooksLikeGmailMixedCase | app.py:40-42 | mixed-case spellings such as `Me@GMail.COM` and `x@GoogleMail.COM` are recognised |
| Addresses.LooksLikeGmailRejectsAngleForm | app.py:40-42 | an address ending in `>` (a display-name form) is rejected |
| Templates.RenderTemplate | app.py:24-27 | the result is `None` exactly for a missing or empty template; otherwise it is the engine's output, or the engine's error |
| PyInt.ParseSigned | app.py:257 | accepted text is non-empty, has at most 4300 digits, and holds only digits, underscores and one leading sign |
| PyInt.ParseInt | app.py:257 | `int(text)` reads only text that is non-empty once stripped and has at most 4300 digits |
| PyInt.ParseIntTooManyDigits | app.py:257-260 | text with more than 4300 digits is never a port, wherever the digits stand |
| PyInt.DecimalValue | app.py:257 | the decimal spelling of `n` is well-formed digits whose value is `n` |
| PyInt.ParseIntDecimal | app.py:257 | `int(str(n)) == n` when `str(n)` has at most 4300 digits, and longer spellings do not read |
| PyInt.ParseSignedNegative | app.py:257 | `-` followed by a decimal spelling is trimmed and reads as the negated number, within the digit limit |
| PyInt.ParseIntNegative | app.py:257 | `int("-" + str(n)) == -n`, within the digit limit |
| PyInt.ParseIntSurrounded | app.py:257 | whitespace around a port text does not change how it reads |
| PyInt.ParseSignedUnderscore | app.py:257 | `5_87` reads as 587: single underscores between digits are skipped |
| PyInt.ParseSignedMisplacedUnderscore | app.py:257 | an underscore that is not between two digits (first, last, after a sign or next to another underscore) makes the text unreadable |
| PyInt.ParseIntMisplacedUnderscore | app.py:257-260 | the same for `int(text)`, whatever whitespace surrounds the text |
| PyInt.ParseIntRejectsMisplacedUnderscore | app.py:257-260 | `5_`, `_5`, `5__7` and a bare `-` are not ports |
| PyInt.ParseIntUnderscore | app.py:257 | `int("5_87") == 587` |
| PyInt.ParseIntRejectsStray | app.py:257-260 | any character other than whitespace, a digit, `_`, `+` or `-` makes the port unreadable |
| PyInt.ParseIntRejectsLetter | app.py:257-260 | `587a` is not a port |
| Mime.SplitMime | app.py:99 | a type with a `/` splits into a main type without `/` and the rest, losing only that `/`; a type without one gives `application/octet-stream` |
| Mime.SplitMimeSpec | app.py:99 | a type with a `/` splits at its first `/`, and the halves join back into the type; a type without one becomes `application/octet-stream` |
| Mime.SplitMimeJoin | app.py:99 | splitting `main/sub`, where `main` has no `/`, gives back `(main, sub)` |
| Mime.DefaultMimeSplits | app.py:98-99 | the default type splits into `application` and `octet-stream` |
| Mime.MimeOf | app.py:98 | a missing or empty type becomes the default, and a non-empty type is kept |
| Mime.AttachmentPart | app.py:96-103 | every attachment becomes an attachment part whose main type holds no `/`; a missing filename becomes `attachment`, and missing data an empty payload |
| Mime.AttachmentPartSplitsMimeOf | app.py:98-100 | an attachment part's type is the split of `part.get("mime", DEFAULT) or DEFAULT` |
| Mime.AttachmentPartFields | app.py:96-101 | the filename is `attachment` only when the key is missing, and the payload is the data or nothing |
| Mime.AttachmentPartType | app.py:98-100 | a missing or empty type, or one without a `/`, gives `application/octet-stream`; any other splits at its first `/` |
| Mime.AttachmentParts | app.py:94-104 | one part per attachment, in order |
| Mime.AttachmentPartsSnoc | app.py:95-104 | one more attachment adds one more part at the end |
| Mime.Bodies | app.py:87-91 | the plain part comes first and only for a truthy text body, and the HTML part comes last and only for a truthy HTML body |
| Mime.ExtraHeaders | app.py:83-85 | only headers with a non-empty value are set, and there are no more of them than were given |
| Mime.ExtraHeadersAppend | app.py:83-85 | filtering headers keeps their order: it distributes over concatenation |
| Mime.ExtraHeadersMembers | app.py:83-85 | a header is set exactly when it is given with a non-empty value |
| Mime.ComposeMessage | app.py:78-104 | the message has at least From, To and Subject, its first part is the alternative part with the bodies, and there is one more part per attachment |
| Mime.ComposeMessageHeaders | app.py:79-85 | every message starts with From, To and Subject and has at most the given extra headers after them |
| Mime.ComposeMessageParts | app.py:87-104 | every message has the alternative part first and then exactly one part per attachment, in order |
| Mime.SetHeaders | app.py:79-85 | the header loop yields From, To, Subject and then the non-empty extra headers in the order given |
| Mime.AttachFiles | app.py:94-104 | the attachment loop appends exactly the attachment parts, in order |
| Mime.BuildMessage | app.py:79-104 | `send`'s assembly builds the composed message |
| Smtp.TransportSteps | app.py:58-65 | one step with implicit TLS, otherwise two or three; the first is the matching connect |
| Smtp.LoginSteps | app.py:66-67 | LOGIN at most once, and exactly when both credentials are non-empty |
| Smtp.ConnectPlan | app.py:57-68 | `__enter__` issues one to four steps, starting with the transport's connect |
| Smtp.RunUntilFailure | app.py:57-68 | no more steps are issued than planned, and when one raises, the last step issued is the one that raised |
| Smtp.ConnectPlanShape | app.py:57-68 | the steps are fixed by the flags: with implicit TLS the code never calls `ehlo()` or `starttls()`; a plain connect is followed by `ehlo()`, then `starttls()` exactly when `use_tls`; LOGIN comes last and only with both credentials; there is one connect, no QUIT and no SENDMAIL |
| Smtp.ConnectsFirstOnly | app.py:57-65 | the plan connects in its first step and never again |
| Smtp.RunUntilFailureSpec | app.py:57-68 | the first failing step raises: the steps issued are a prefix of the plan, all succeed but the last, the last carries the error, and the whole plan runs exactly when nothing fails |
| Smtp.RunAppend | app.py:57-68 | the LOGIN part runs only when opening the transport did not raise |
| Smtp.RunUntilFailureAgree | app.py:57-68 | two networks that answer each planned step alike give the same steps and error |
| Smtp.SmtpSession.constructor | app.py:46-55 | a new session holds the given settings and no server |
| Smtp.SmtpSession.Issue | app.py:60-106 | each call through `self.server` appends its step to the transcript and returns the server's answer |
| Smtp.SmtpSession.OpenTransport | app.py:58-65 | the transport steps issued are those of the plan until the first failure, and `self.server` is set once the connect succeeds |
| Smtp.SmtpSession.OpenImplicitTls | app.py:59-60 | with `use_ssl`, one implicit-TLS connect, which sets `self.server` when it succeeds |
| Smtp.SmtpSession.OpenPlain | app.py:61-65 | without `use_ssl`, a plain connect that sets `self.server`, then EHLO and STARTTLS up to the first failure |
| Smtp.SmtpSession.Greet | app.py:63-65 | EHLO, then STARTTLS only with `use_tls` and only when EHLO succeeded |
| Smtp.SmtpSession.Enter | app.py:57-68 | `__enter__` issues the connection plan up to and including the first failing step, and reports that step's error |
| Smtp.SmtpSession.Exit | app.py:70-75 | `__exit__` sends QUIT exactly when a server is held, and no error leaves it |
| Smtp.SmtpSession.Send | app.py:77-106 | `send` issues one SENDMAIL from the sender to the single recipient, with the composed message; without a server it raises and issues nothing |
| Smtp.SmtpSession.SendThenExit | app.py:293-303 | inside an entered session, `send` issues one SENDMAIL and `__exit__` then says QUIT; the error is the send's |
| Smtp.SessionAttempt | app.py:292-303 | an attempt starts with the plan's connect and issues at most the plan, the message and QUIT; when it succeeds it issued exactly those |
| Smtp.Deliver | app.py:292-303 | a fresh session, entered, sent through and left, issues the steps of one attempt and reports its error |
| Smtp.SessionAttemptConnectsOnce | app.py:292-303 | every attempt starts with the plan's connect and never connects again |
| Smtp.SessionAttemptOutcome | app.py:292-307 | QUIT is sent exactly when entering succeeded, and the attempt is then the plan, the message and QUIT; the attempt succeeds exactly when the plan and the message both do |
| Smtp.QuitErrorSwallowed | app.py:70-75 | an error from QUIT never changes the attempt's steps or outcome |
| Dispatch.UploadAttachment | app.py:273 | an upload becomes its name, its bytes, and its type or the default |
| Dispatch.Attachments | app.py:270-273 | one attachment per upload, in upload order |
| Dispatch.GatherAttachments | app.py:270-273 | the upload loop builds exactly that attachment list |
| Dispatch.RenderEvents | app.py:24-26 | a template makes one engine call exactly when it is non-empty |
| Dispatch.RenderRow | app.py:282-284 | the renders of a row are engine calls tagged with that row |
| Dispatch.RenderRowOrder | app.py:282-284 | subject, HTML and text are rendered in that order; the first template error stops the renders after it and is the row's error; the empty templates make no call; with no error the row's message holds the three results |
| Dispatch.SessionConfigOf | app.py:293-301 | the session gets the sidebar's host, user, password, SSL and TLS flags and sender, and the parsed port, each in its own field |
| Dispatch.RowAttempt | app.py:292-303 | a row's attempt connects to the configured host and port with the configured TLS mode; when it succeeds it issued the plan, one SENDMAIL from the sender to the stripped address with no extra headers, and QUIT |
| Dispatch.RenderError | app.py:277-284 | a row raises nothing without an address; otherwise it raises the error of the first of subject, HTML and text whose render fails, and nothing when all render |
| Dispatch.ProcessRow | app.py:276-307 | a row is `NoAddress` exactly when its stripped address is empty, and it then causes no event; the row raises exactly when its address is non-empty and a render raises, with that error; otherwise a dry run counts it as sent after the renders, and a real run appends the tagged steps of one session attempt and counts it as delivered, or as failed with the stripped address and the attempt's error |
| Dispatch.HandleRow | app.py:276-307 | the loop body computes `do_send`'s handling of the row |
| Dispatch.Advance | app.py:275-307 | one row extends the events and outcomes, by at most one outcome, and changes nothing once an error has escaped |
| Dispatch.RunRows | app.py:275-310 | no more outcomes than rows |
| Dispatch.SentCount | app.py:267-307 | `sent_rows` never exceeds the rows handled |
| Dispatch.FailedCount | app.py:267-307 | `failed_rows` never exceeds the rows handled |
| Dispatch.ErrorRows | app.py:268-307 | there are no more error rows than failed rows |
| Dispatch.Conclude | app.py:275-312 | the run's events are the loop's events, and the run aborts exactly when an error escaped the loop |
| Dispatch.Tally | app.py:277-307 | the counters and error rows stay equal to those of the outcomes so far |
| Dispatch.SendRows | app.py:275-310 | the loop's counters, error rows, events and escaping error are those of the run over the rows |
| Dispatch.DoSend | app.py:255-314 | `do_send` ends with the report and events of the run |
| Dispatch.Run | app.py:256-260 | the run stops before any event exactly when the port text is not an integer |
| Dispatch.NonNumericPortStops | app.py:256-260 | a port with a stray character, such as `587a`, stops the run with no event |
| Dispatch.LedgerSnoc | app.py:277-307 | one more outcome adds one to `sent` or to `failed`, and adds an error row exactly for a failed send |
| Dispatch.CountsBalance | app.py:267-307 | every outcome counts once, as sent or as failed |
| Dispatch.RunRowsAbortStays | app.py:282-284 | once a render error has escaped, later rows change nothing |
| Dispatch.RunRowsOutcomes | app.py:275-310 | rows are handled in order: the `k`-th outcome is row `k`'s; without a render error every row is handled; with one, the run stops at that row |
| Dispatch.RunRowsLedger | app.py:277-307 | failed = rows without an address + error rows |
| Dispatch.RunRowsDry | app.py:286-290 | rows that never reach the server leave no SMTP step and no error row |
| Dispatch.RunRowsTrace | app.py:275-310 | events come in row order, and only from rows with an address |
| Dispatch.TraceSnoc | app.py:275-310 | appending the next row's events keeps the trace in row order |
| Dispatch.RunRowsAgree | app.py:275-310 | two row handlers that agree give the same run |
| Dispatch.RowHandlerFacts | app.py:276-307 | `do_send`'s row handling tags its own row, marks exactly the blank rows as `NoAddress`, and in a dry run never sends |
| Dispatch.ConcludeLedger | app.py:267-312 | a finished run's report balances: sent + failed = rows, and failed = blank rows + error rows |
| Dispatch.RunLedger | app.py:267-312 | a finished `do_send` counts every row once, and its failures are the rows without an address plus one error row per failed send |
| Dispatch.DryRunSendsNothing | app.py:286-290 | a dry run issues no SMTP step; if it finishes, it has no error rows, fails exactly the blank rows and sends all others |
| Dispatch.RunTraceInRowOrder | app.py:275-310 | the rows are handled in order, and a row without an address causes neither a render nor an SMTP step |
| Dispatch.RunRowsEvents | app.py:275-307 | without an escaping error, the events are the rows' events concatenated in row order |
| Dispatch.RunRowsErrors | app.py:305-307 | without an escaping error, the error rows are the rows' failure entries in row order |
| Dispatch.RunRowsSent | app.py:286-304 | without an escaping error, `sent_rows` is the number of rows that count as sent |
| Dispatch.SendingHandlerFacts | app.py:276-307 | outside a dry run, a row's events are its renders and then its attempt's steps; its failure entry is its stripped address and the attempt's error; it counts as sent exactly when the attempt succeeded |
| Dispatch.RunDeliveries | app.py:275-312 | a finished run that is not a dry run makes one session attempt per addressed row: its events are each row's renders and attempt steps in row order; its error rows are the stripped address and error of each failed attempt in row order; `sent` counts the successful attempts |
| Dispatch.ConcludeAbort | app.py:282-284 | a run ends with the error of the first row whose handling raises, and finishes exactly when no row's handling raises |
| Dispatch.AbortAtFirstRaise | app.py:282-284 | an escaping error is the error of the first row that raises |
| Dispatch.FinishedWithoutRaise | app.py:275-310 | the loop completes exactly when no row raises |
| Dispatch.RunAbortsOnRenderError | app.py:282-284 | a template error ends `do_send` at the first addressed row whose render raises, with that error; the run finishes exactly when no addressed row's render raises |
| Dispatch.SendFailuresNeverAbort | app.py:292-307 | a failed send never ends the run: with any two networks, the run aborts in both or in neither, and with the same error |
| Dispatch.ProcessRowIgnoresPacing | app.py:128-130 | a row is handled the same whatever the rate, batch size and retry count |
| Dispatch.PacingSettingsIgnored | app.py:128-130 | the rate, batch size and retry count do not change the run's report or events |

## Left out

- The Streamlit user interface is left out because it is I/O. That
  covers the widgets, the CSV upload and the column check, the dataframe
  previews, the status lines, the progress bar and the final
  success/error display. Settings and rows are inputs instead.
- `pandas` is left out. A row is its `email` cell as text plus its
  fields. A missing cell becomes the text `nan` in the code, and the
  model does not reproduce that.
- Jinja's rendering is an oracle, so template syntax and filters are not
  modelled.
- `smtplib`, `ssl`, sockets, MIME serialisation and base64 encoding are
  left out because they are foreign code. The message is kept as headers
  and parts. Each protocol step's success or error comes from the
  network oracle.
- The session timeout is left out because it is a float that is only
  passed to the socket.
- `time.sleep(delay)` and the delay computed from `rate_per_min` are
  left out because they are a clock and floating point. The model proves
  only that the rate does not change the run.
- Smtp.ConnectPlan: the `Ehlo` step stands only for the explicit
  `self.server.ehlo()` at app.py:63. The EHLO that `smtplib` sends by
  itself inside `login()` and `sendmail()` when none has been sent on the
  connection, including the second EHLO after STARTTLS, is part of the
  foreign library and is not recorded.
- `backoff` is left out because it is never called, and it uses floats
  and `uuid` randomness.
- Text.Lower: lowers ASCII letters only, not the rest of Unicode.
- PyInt.ParseSigned: accepts ASCII digits only, not other Unicode
  decimal digits. It uses the default 4300-digit limit, not a limit
  changed with `sys.set_int_max_str_digits`.
- Mime.AttachmentPart: treats dictionary values that are present but
  `None` like missing keys for `data` and `filename`. `do_send` never
  builds such dictionaries.
- Dispatch.Run: the rows stand for `df.iterrows()` with positional
  indices. Index labels only feed the progress bar, which is left out.
- The code has no rate limiter beyond the sleep, no batching, no
  retries, no failure classes, no custom headers and no cancellation,
  so the model has none either.
