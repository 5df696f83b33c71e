/**
 * `do_send`: the dispatch loop of the mailer. It reads the port, gathers
 * the uploaded attachments, then handles the recipients one by one: a row
 * with an empty address is counted as failed; otherwise the subject, HTML
 * and text templates are rendered, and, unless this is a dry run, a fresh
 * SMTP session sends the message once. The counters `sent` and `failed`
 * and the list of error rows are the run's ledger.
 *
 * The template engine and the network are oracles; the Streamlit widgets,
 * progress bar and pacing sleep are not part of the model.
 */
module Dispatch {
  import opened Wrappers
  import opened Text
  import opened PyInt
  import opened Templates
  import opened Mime
  import opened Smtp

  /** One uploaded file: its name, its bytes and the type the browser
      reported, which may be missing or empty. */
  datatype Upload = Upload(name: string, data: seq<bv8>, mimeType: Option<string>)

  /** One CSV row: the text of its `email` cell and all of its fields. */
  datatype Row = Row(email: string, fields: Context)

  /** The sidebar settings and the three templates. */
  datatype Settings = Settings(
    host: string, portText: string, user: string, password: string, fromAddr: string,
    useSsl: bool, useTls: bool, ratePerMin: int, batchSize: int, maxRetries: int,
    dryRun: bool, subjectTpl: string, htmlTpl: string, textTpl: string)

  /** A row of the failure table. */
  datatype ErrorRow = ErrorRow(email: string, error: string)

  /** What became of one recipient. */
  datatype RowOutcome = NoAddress | DrySent | Delivered | SendFailed(email: string, error: string)

  /** The run's observable effects, in order: calls of the template engine
      and SMTP steps, each tagged with the index of its row. */
  datatype Event = Rendered(row: nat, template: string) | Smtp(row: nat, step: Step)

  /** How `do_send` ends: an unreadable port stops it before any row; a
      template error escapes it; otherwise it reports its ledger. */
  datatype Report =
    | BadPort
    | RenderAborted(error: string)
    | Finished(sent: nat, failed: nat, errors: seq<ErrorRow>)

  /** The rendered subject, HTML body and text body of one message. */
  datatype RenderedMessage = RenderedMessage(subject: Option<string>, html: Option<string>, text: Option<string>)

  /** The network as seen by each row's session. */
  type Networks = nat -> Network

  /** The state of the run after some rows: the outcome of each row
      handled, the events so far, and the error that ended it, if any. */
  datatype Progress = Progress(outcomes: seq<RowOutcome>, trace: seq<Event>, abort: Option<string>)

  // ---------------------------------------------------------------------
  // Attachments

  /** The attachment dictionary built from one upload; an upload without a
      type gets `application/octet-stream`. */
  function UploadAttachment(u: Upload): (a: AttachmentSpec)
    ensures a.filename == Some(u.name) && a.data == Some(u.data)
    ensures a.mime == Some(if Truthy(u.mimeType) then u.mimeType.value else DefaultMime)
  {
    AttachmentSpec(Some(u.name), Some(u.data), Some(if Truthy(u.mimeType) then u.mimeType.value else DefaultMime))
  }

  /** One attachment per upload, in upload order. */
  function Attachments(uploads: seq<Upload>): (r: seq<AttachmentSpec>)
    ensures |r| == |uploads|
    ensures forall k :: 0 <= k < |uploads| ==> r[k] == UploadAttachment(uploads[k])
  {
    if uploads == [] then []
    else Attachments(uploads[..|uploads| - 1]) + [UploadAttachment(uploads[|uploads| - 1])]
  }

  // ---------------------------------------------------------------------
  // One row

  /** The engine call made for one template: one for a non-empty
      template, none for an empty one. */
  function RenderEvents(i: nat, tpl: string): (r: seq<Event>)
    ensures r == [] <==> tpl == ""
    ensures tpl != "" ==> r == [Rendered(i, tpl)]
  {
    if tpl == "" then [] else [Rendered(i, tpl)]
  }

  /** The subject, HTML and text renders of row `i`, in this order; the
      first render that raises ends the row with its error. */
  function RenderRow(st: Settings, i: nat, ctx: Context, render: Renderer): (r: (seq<Event>, Result<RenderedMessage>))
    ensures forall e :: e in r.0 ==> e.Rendered? && e.row == i
  {
    var subject := RenderTemplate(Some(st.subjectTpl), ctx, render);
    var e1 := RenderEvents(i, st.subjectTpl);
    if subject.Err? then (e1, Err(subject.error))
    else
      var html := RenderTemplate(Some(st.htmlTpl), ctx, render);
      var e2 := e1 + RenderEvents(i, st.htmlTpl);
      if html.Err? then (e2, Err(html.error))
      else
        var text := RenderTemplate(Some(st.textTpl), ctx, render);
        var e3 := e2 + RenderEvents(i, st.textTpl);
        if text.Err? then (e3, Err(text.error))
        else (e3, Ok(RenderedMessage(subject.value, html.value, text.value)))
  }

  /** The renders of a row happen in the order subject, HTML, text, one
      engine call per non-empty template. The row renders exactly when no
      template raises, and then carries the three results; otherwise it
      ends at the first template that raises, with that template's error,
      and the later templates are not rendered. */
  lemma RenderRowOrder(st: Settings, i: nat, ctx: Context, render: Renderer)
    ensures var r := RenderRow(st, i, ctx, render);
      var s := RenderTemplate(Some(st.subjectTpl), ctx, render);
      var h := RenderTemplate(Some(st.htmlTpl), ctx, render);
      var t := RenderTemplate(Some(st.textTpl), ctx, render);
      var es, eh, et := RenderEvents(i, st.subjectTpl), RenderEvents(i, st.htmlTpl), RenderEvents(i, st.textTpl);
      && (r.1.Ok? <==> s.Ok? && h.Ok? && t.Ok?)
      && (r.1.Ok? ==> r == (es + eh + et, Ok(RenderedMessage(s.value, h.value, t.value))))
      && (s.Err? ==> r == (es, Err(s.error)))
      && (s.Ok? && h.Err? ==> r == (es + eh, Err(h.error)))
      && (s.Ok? && h.Ok? && t.Err? ==> r == (es + eh + et, Err(t.error)))
  {
  }

  /** The SMTP steps of row `i` as events. */
  function Tag(i: nat, steps: seq<Step>): (r: seq<Event>)
    ensures |r| == |steps|
    ensures forall k :: 0 <= k < |steps| ==> r[k] == Smtp(i, steps[k])
  {
    seq(|steps|, k requires 0 <= k < |steps| => Smtp(i, steps[k]))
  }

  /** The arguments of `SMTPSession(...)` in `do_send`: the sidebar's
      host, user, password, TLS flags and sender, and the parsed port. */
  function SessionConfigOf(st: Settings, port: int): (c: SessionConfig)
    ensures c.host == st.host && c.port == port && c.fromAddr == st.fromAddr
    ensures c.user == st.user && c.password == st.password
    ensures c.useSsl == st.useSsl && c.useTls == st.useTls
  {
    SessionConfig(st.host, port, st.user, st.password, st.useSsl, st.useTls, st.fromAddr)
  }

  /** The one `with SMTPSession(...)` block run for an addressed row whose
      templates rendered: a fresh session sending to the stripped address,
      with no extra headers, over row `i`'s network. */
  function RowAttempt(st: Settings, port: int, atts: seq<AttachmentSpec>, i: nat, row: Row,
                      m: RenderedMessage, net: Networks): (r: (seq<Step>, Option<string>))
    ensures r.0 != [] && r.0[0] == if st.useSsl then ConnectImplicitTls(st.host, port) else ConnectPlain(st.host, port)
    ensures r.1.None? ==>
      var to := Strip(row.email);
      r.0 == ConnectPlan(SessionConfigOf(st, port))
        + [SendMail(st.fromAddr, [to], ComposeMessage(st.fromAddr, to, m.subject, m.html, m.text, [], atts)), Quit]
  {
    SessionAttempt(SessionConfigOf(st, port), Strip(row.email), m.subject, m.html, m.text, [], atts, net(i))
  }

  /** The error that a row's renders raise: `None` for a row without an
      address, which is never rendered, or one whose templates all render. */
  function RenderError(st: Settings, i: nat, row: Row, render: Renderer): (r: Option<string>)
    ensures var s := RenderTemplate(Some(st.subjectTpl), row.fields, render);
      var h := RenderTemplate(Some(st.htmlTpl), row.fields, render);
      var t := RenderTemplate(Some(st.textTpl), row.fields, render);
      r == if Strip(row.email) == "" then None
           else if s.Err? then Some(s.error)
           else if h.Err? then Some(h.error)
           else if t.Err? then Some(t.error)
           else None
  {
    RenderRowOrder(st, i, row.fields, render);
    if Strip(row.email) == "" then None
    else match RenderRow(st, i, row.fields, render).1
      case Err(e) => Some(e)
      case Ok(_) => None
  }

  /** The handling of row `i`: its events and its outcome, or the render
      error that escapes the run. */
  function ProcessRow(st: Settings, port: int, atts: seq<AttachmentSpec>, i: nat, row: Row,
                      render: Renderer, net: Networks): (r: (seq<Event>, Result<RowOutcome>))
    ensures forall e :: e in r.0 ==> e.row == i && Strip(row.email) != ""
    ensures r.1 == Ok(NoAddress) <==> Strip(row.email) == ""
    ensures st.dryRun ==> (forall e :: e in r.0 ==> e.Rendered?) && !(r.1.Ok? && r.1.value.SendFailed?)
    ensures r.1.Err? <==> RenderError(st, i, row, render).Some?
    ensures r.1.Err? ==> r.1.error == RenderError(st, i, row, render).value
    ensures Strip(row.email) != "" && RenderRow(st, i, row.fields, render).1.Ok? ==>
      var (evs, m) := RenderRow(st, i, row.fields, render);
      if st.dryRun then r == (evs, Ok(DrySent))
      else
        var (steps, err) := RowAttempt(st, port, atts, i, row, m.value, net);
        r == (evs + Tag(i, steps), Ok(if err.None? then Delivered else SendFailed(Strip(row.email), err.value)))
  {
    var to := Strip(row.email);
    if to == "" then ([], Ok(NoAddress))
    else
      var (evs, rendered) := RenderRow(st, i, row.fields, render);
      if rendered.Err? then (evs, Err(rendered.error))
      else if st.dryRun then (evs, Ok(DrySent))
      else
        var (steps, err) := RowAttempt(st, port, atts, i, row, rendered.value, net);
        (evs + Tag(i, steps), Ok(if err.None? then Delivered else SendFailed(to, err.value)))
  }

  // ---------------------------------------------------------------------
  // The run

  /** How one row is handled: its events and its outcome, or the error
      that escapes the run. */
  type Handler = (nat, Row) -> (seq<Event>, Result<RowOutcome>)

  /** `do_send`'s handling of a row, for a given port, attachment list,
      template engine and network. */
  function RowHandler(st: Settings, port: int, atts: seq<AttachmentSpec>, render: Renderer, net: Networks): Handler
  {
    (i: nat, row: Row) => ProcessRow(st, port, atts, i, row, render, net)
  }

  /** The run after one more row: unchanged once a render error has ended
      it; otherwise the row's events are appended and its outcome recorded,
      or its render error ends the run. */
  function Advance(p: Progress, handle: Handler, i: nat, row: Row): (r: Progress)
    ensures p.trace <= r.trace && p.outcomes <= r.outcomes && |r.outcomes| <= |p.outcomes| + 1
    ensures p.abort.Some? ==> r == p
  {
    if p.abort.Some? then p
    else
      var (evs, r) := handle(i, row);
      match r
      case Err(e) => Progress(p.outcomes, p.trace + evs, Some(e))
      case Ok(o) => Progress(p.outcomes + [o], p.trace + evs, None)
  }

  /** The run over `rows`, one row after another, stopping at the first
      render error. */
  function RunRows(handle: Handler, rows: seq<Row>): (r: Progress)
    ensures |r.outcomes| <= |rows|
  {
    if rows == [] then Progress([], [], None)
    else Advance(RunRows(handle, rows[..|rows| - 1]), handle, |rows| - 1, rows[|rows| - 1])
  }

  predicate IsSent(o: RowOutcome) {
    o.DrySent? || o.Delivered?
  }

  /** `sent_rows`: the outcomes that count as sent. */
  function SentCount(os: seq<RowOutcome>): (n: nat)
    ensures n <= |os|
  {
    if os == [] then 0
    else SentCount(os[..|os| - 1]) + (if IsSent(os[|os| - 1]) then 1 else 0)
  }

  /** `failed_rows`: the outcomes that count as failed. */
  function FailedCount(os: seq<RowOutcome>): (n: nat)
    ensures n <= |os|
  {
    if os == [] then 0
    else FailedCount(os[..|os| - 1]) + (if IsSent(os[|os| - 1]) then 0 else 1)
  }

  /** `error_rows`: one row per failed send, in the order they happened. */
  function ErrorRows(os: seq<RowOutcome>): (r: seq<ErrorRow>)
    ensures |r| <= FailedCount(os)
  {
    if os == [] then []
    else
      var o := os[|os| - 1];
      ErrorRows(os[..|os| - 1]) + (if o.SendFailed? then [ErrorRow(o.email, o.error)] else [])
  }

  /** The rows whose address is empty once stripped. */
  function BlankRows(rows: seq<Row>): (n: nat)
    ensures n <= |rows|
  {
    if rows == [] then 0
    else BlankRows(rows[..|rows| - 1]) + (if Strip(rows[|rows| - 1].email) == "" then 1 else 0)
  }

  /** The whole of `do_send`: its report and its events. A port that is
      not an integer stops the run before anything else happens. */
  function Run(st: Settings, uploads: seq<Upload>, rows: seq<Row>, render: Renderer, net: Networks): (r: (Report, seq<Event>))
    ensures r.0.BadPort? <==> ParseInt(Strip(st.portText)).None?
    ensures r.0.BadPort? ==> r.1 == []
  {
    match ParseInt(Strip(st.portText))
    case None => (BadPort, [])
    case Some(port) => Conclude(RunRows(RowHandler(st, port, Attachments(uploads), render, net), rows))
  }

  /** The report and events of a run that got past the port. */
  function Conclude(p: Progress): (r: (Report, seq<Event>))
    ensures r.1 == p.trace && !r.0.BadPort?
    ensures r.0.RenderAborted? <==> p.abort.Some?
  {
    if p.abort.Some? then (RenderAborted(p.abort.value), p.trace)
    else (Finished(SentCount(p.outcomes), FailedCount(p.outcomes), ErrorRows(p.outcomes)), p.trace)
  }

  // ---------------------------------------------------------------------
  // do_send

  /** The body of `do_send`'s loop for row `i`, up to the counters: the
      address check, the three renders and, unless this is a dry run, one
      send through a fresh session. */
  method HandleRow(st: Settings, port: int, atts: seq<AttachmentSpec>, i: nat, row: Row,
                   render: Renderer, net: Networks)
    returns (events: seq<Event>, r: Result<RowOutcome>)
    ensures (events, r) == RowHandler(st, port, atts, render, net)(i, row)
  {
    var to := Strip(row.email);
    if to == "" {
      return [], Ok(NoAddress);
    }
    var (evs, rendered) := RenderRow(st, i, row.fields, render);
    events := evs;
    if rendered.Err? {
      return events, Err(rendered.error);
    }
    if st.dryRun {
      return events, Ok(DrySent);
    }
    var m := rendered.value;
    var steps, err := Deliver(SessionConfigOf(st, port), to, m.subject, m.html, m.text, [], atts, net(i));
    events := events + Tag(i, steps);
    r := if err.None? then Ok(Delivered) else Ok(SendFailed(to, err.value));
  }

  /** The attachment list `do_send` builds from the uploads, one entry
      per upload, in order. */
  method GatherAttachments(uploads: seq<Upload>) returns (attachments: seq<AttachmentSpec>)
    ensures attachments == Attachments(uploads)
  {
    attachments := [];
    for k := 0 to |uploads|
      invariant attachments == Attachments(uploads[..k])
    {
      assert uploads[..k + 1][..k] == uploads[..k];
      attachments := attachments + [UploadAttachment(uploads[k])];
    }
    assert uploads[..|uploads|] == uploads;
  }

  /** `do_send`'s loop over the rows: the counters and error rows kept as
      the rows are handled, the events, and the render error that escapes
      the loop, if one does. */
  method SendRows(st: Settings, port: int, attachments: seq<AttachmentSpec>, rows: seq<Row>,
                  render: Renderer, net: Networks)
    returns (sent: nat, failed: nat, errorRows: seq<ErrorRow>, trace: seq<Event>, abort: Option<string>)
    ensures var p := RunRows(RowHandler(st, port, attachments, render, net), rows);
      trace == p.trace && abort == p.abort &&
      (abort.None? ==> sent == SentCount(p.outcomes) && failed == FailedCount(p.outcomes) && errorRows == ErrorRows(p.outcomes))
  {
    ghost var handle := RowHandler(st, port, attachments, render, net);
    sent, failed, errorRows, trace := 0, 0, [], [];
    ghost var outcomes: seq<RowOutcome> := [];
    for i := 0 to |rows|
      invariant RunRows(handle, rows[..i]) == Progress(outcomes, trace, None)
      invariant sent == SentCount(outcomes) && failed == FailedCount(outcomes)
      invariant errorRows == ErrorRows(outcomes)
    {
      assert rows[..i + 1][..i] == rows[..i];
      assert RunRows(handle, rows[..i + 1]) == Advance(RunRows(handle, rows[..i]), handle, i, rows[i]);
      var events, r := HandleRow(st, port, attachments, i, rows[i], render, net);
      trace := trace + events;
      if r.Err? {
        RunRowsAbortStays(handle, rows, i + 1);
        return sent, failed, errorRows, trace, Some(r.error);
      }
      sent, failed, errorRows := Tally(sent, failed, errorRows, outcomes, r.value);
      outcomes := outcomes + [r.value];
    }
    assert rows[..|rows|] == rows;
    abort := None;
  }

  /** The counters after one more row: a blank address or a failed send
      counts as failed, and a failed send also adds an error row. */
  method Tally(sent: nat, failed: nat, errorRows: seq<ErrorRow>, ghost outcomes: seq<RowOutcome>, o: RowOutcome)
    returns (sent': nat, failed': nat, errorRows': seq<ErrorRow>)
    requires sent == SentCount(outcomes) && failed == FailedCount(outcomes) && errorRows == ErrorRows(outcomes)
    ensures sent' == SentCount(outcomes + [o]) && failed' == FailedCount(outcomes + [o])
    ensures errorRows' == ErrorRows(outcomes + [o])
  {
    LedgerSnoc(outcomes, o);
    sent', failed', errorRows' := sent, failed, errorRows;
    if o.NoAddress? {
      failed' := failed + 1;
    } else if o.SendFailed? {
      failed' := failed + 1;
      errorRows' := errorRows + [ErrorRow(o.email, o.error)];
    } else {
      sent' := sent + 1;
    }
  }

  /** `do_send`: read the port, gather the attachments, then handle each
      row in turn, keeping the counters and the error rows. */
  method DoSend(st: Settings, uploads: seq<Upload>, rows: seq<Row>, render: Renderer, net: Networks)
    returns (report: Report, trace: seq<Event>)
    ensures (report, trace) == Run(st, uploads, rows, render, net)
  {
    var parsed := ParseInt(Strip(st.portText));
    if parsed.None? {
      return BadPort, [];
    }
    var port := parsed.value;
    var attachments := GatherAttachments(uploads);
    var sent, failed, errorRows, abort;
    sent, failed, errorRows, trace, abort := SendRows(st, port, attachments, rows, render, net);
    if abort.Some? {
      return RenderAborted(abort.value), trace;
    }
    report := Finished(sent, failed, errorRows);
  }

  /** The ledger after one more outcome. */
  lemma LedgerSnoc(os: seq<RowOutcome>, o: RowOutcome)
    ensures SentCount(os + [o]) == SentCount(os) + (if IsSent(o) then 1 else 0)
    ensures FailedCount(os + [o]) == FailedCount(os) + (if IsSent(o) then 0 else 1)
    ensures ErrorRows(os + [o]) == ErrorRows(os) + (if o.SendFailed? then [ErrorRow(o.email, o.error)] else [])
  {
    assert (os + [o])[..|os|] == os;
  }

  /** Once a render error has ended the run, later rows change nothing. */
  lemma {:induction false} RunRowsAbortStays(handle: Handler, rows: seq<Row>, k: nat)
    requires k <= |rows|
    requires RunRows(handle, rows[..k]).abort.Some?
    ensures RunRows(handle, rows) == RunRows(handle, rows[..k])
    decreases |rows| - k
  {
    if k < |rows| {
      assert rows[..k + 1][..k] == rows[..k];
      RunRowsAbortStays(handle, rows, k + 1);
    } else {
      assert rows[..k] == rows;
    }
  }

  // ---------------------------------------------------------------------
  // Properties of the run

  /** Every outcome counts once, as sent or as failed. */
  lemma {:induction false} CountsBalance(os: seq<RowOutcome>)
    ensures SentCount(os) + FailedCount(os) == |os|
  {
    if os != [] {
      CountsBalance(os[..|os| - 1]);
    }
  }

  /** The rows are handled in order: the `k`-th outcome is that of row
      `k`; a run without a render error handles every row; a run with one
      stops at the first row whose render raises. */
  lemma {:induction false} RunRowsOutcomes(handle: Handler, rows: seq<Row>)
    ensures var p := RunRows(handle, rows);
      && |p.outcomes| <= |rows|
      && (p.abort.None? ==> |p.outcomes| == |rows|)
      && (p.abort.Some? ==>
            |p.outcomes| < |rows| && handle(|p.outcomes|, rows[|p.outcomes|]).1 == Err(p.abort.value))
      && (forall k :: 0 <= k < |p.outcomes| ==> handle(k, rows[k]).1 == Ok(p.outcomes[k]))
  {
    if rows != [] {
      var n := |rows| - 1;
      var front := rows[..n];
      RunRowsOutcomes(handle, front);
      assert forall k :: 0 <= k < n ==> front[k] == rows[k];
    }
  }

  /** A row without an address counts as failed without an error row; a
      row whose send fails counts as failed with one. */
  lemma {:induction false} RunRowsLedger(handle: Handler, rows: seq<Row>)
    requires BlankIsNoAddress(handle)
    ensures var p := RunRows(handle, rows);
      p.abort.None? ==> FailedCount(p.outcomes) == BlankRows(rows) + |ErrorRows(p.outcomes)|
  {
    if rows != [] {
      var n := |rows| - 1;
      RunRowsLedger(handle, rows[..n]);
      var q := RunRows(handle, rows[..n]);
      var r := handle(n, rows[n]).1;
      if q.abort.None? && r.Ok? {
        LedgerSnoc(q.outcomes, r.value);
      }
    }
  }

  /** Rows that never reach the server leave no SMTP step and no error
      row in the run. */
  lemma {:induction false} RunRowsDry(handle: Handler, rows: seq<Row>)
    requires NeverSends(handle)
    ensures AllRendered(RunRows(handle, rows).trace) && ErrorRows(RunRows(handle, rows).outcomes) == []
  {
    if rows != [] {
      var n := |rows| - 1;
      RunRowsDry(handle, rows[..n]);
      var q := RunRows(handle, rows[..n]);
      var r := handle(n, rows[n]).1;
      if q.abort.None? && r.Ok? {
        LedgerSnoc(q.outcomes, r.value);
      }
    }
  }

  /** Every event belongs to one of `rows` that has an address. */
  predicate FromAddressedRows(t: seq<Event>, rows: seq<Row>) {
    forall e :: e in t ==> e.row < |rows| && Strip(rows[e.row].email) != ""
  }

  /** The events of a row never come after those of a later row. */
  predicate InRowOrder(t: seq<Event>) {
    forall a, b :: 0 <= a < b < |t| ==> t[a].row <= t[b].row
  }

  /** A handler whose events all belong to the row handled, and only to
      a row with an address. */
  ghost predicate TagsOwnRow(handle: Handler) {
    forall i, row, e :: e in handle(i, row).0 ==> e.row == i && Strip(row.email) != ""
  }

  /** Events come row after row, and only from rows that have an
      address. */
  lemma {:induction false} RunRowsTrace(handle: Handler, rows: seq<Row>)
    requires TagsOwnRow(handle)
    ensures FromAddressedRows(RunRows(handle, rows).trace, rows)
    ensures InRowOrder(RunRows(handle, rows).trace)
  {
    if rows != [] {
      var n := |rows| - 1;
      var front := rows[..n];
      RunRowsTrace(handle, front);
      var q := RunRows(handle, front);
      assert RunRows(handle, rows) == Advance(q, handle, n, rows[n]);
      if q.abort.None? {
        var evs := handle(n, rows[n]).0;
        TraceSnoc(q.trace, evs, front, rows[n]);
        assert front + [rows[n]] == rows;
      }
    }
  }

  /** Appending the events of the next row keeps the trace in row order
      and attributed to rows with an address. */
  lemma TraceSnoc(t: seq<Event>, evs: seq<Event>, front: seq<Row>, row: Row)
    requires FromAddressedRows(t, front) && InRowOrder(t)
    requires forall e :: e in evs ==> e.row == |front| && Strip(row.email) != ""
    ensures FromAddressedRows(t + evs, front + [row]) && InRowOrder(t + evs)
  {
    var rows := front + [row];
    assert forall k :: 0 <= k < |front| ==> rows[k] == front[k];
    forall a, b | 0 <= a < b < |t + evs|
      ensures (t + evs)[a].row <= (t + evs)[b].row
    {
      if b >= |t| {
        assert (t + evs)[b] in evs;
        assert (t + evs)[a] in t || (t + evs)[a] in evs;
      }
    }
  }

  /** Two handlers that agree on every row give the same run. */
  lemma {:induction false} RunRowsAgree(h: Handler, h': Handler, rows: seq<Row>)
    requires forall i, row :: h(i, row) == h'(i, row)
    ensures RunRows(h, rows) == RunRows(h', rows)
  {
    if rows != [] {
      RunRowsAgree(h, h', rows[..|rows| - 1]);
    }
  }

  /** What each row contributes, concatenated in row order. */
  function Collect<T>(g: (nat, Row) -> seq<T>, rows: seq<Row>): seq<T> {
    if rows == [] then []
    else Collect(g, rows[..|rows| - 1]) + g(|rows| - 1, rows[|rows| - 1])
  }

  /** The error row an outcome adds to the failure table. */
  function FailureRow(o: RowOutcome): seq<ErrorRow> {
    if o.SendFailed? then [ErrorRow(o.email, o.error)] else []
  }

  /** A handler whose events for each row are `ev`'s. */
  ghost predicate EventsAre(handle: Handler, ev: (nat, Row) -> seq<Event>) {
    forall i, row :: handle(i, row).0 == ev(i, row)
  }

  /** A handler whose error row for each row it does not raise on is
      `errs`'s. */
  ghost predicate ErrorsAre(handle: Handler, errs: (nat, Row) -> seq<ErrorRow>) {
    forall i, row :: handle(i, row).1.Ok? ==> errs(i, row) == FailureRow(handle(i, row).1.value)
  }

  /** A handler that counts a row as sent exactly when `sent` gives one
      entry for it. */
  ghost predicate SentAre<T>(handle: Handler, sent: (nat, Row) -> seq<T>) {
    forall i, row :: handle(i, row).1.Ok? ==> |sent(i, row)| == (if IsSent(handle(i, row).1.value) then 1 else 0)
  }

  /** A run without a render error has the events of every row, in row
      order. */
  lemma {:induction false} RunRowsEvents(handle: Handler, ev: (nat, Row) -> seq<Event>, rows: seq<Row>)
    requires EventsAre(handle, ev)
    ensures RunRows(handle, rows).abort.None? ==> RunRows(handle, rows).trace == Collect(ev, rows)
  {
    if rows != [] {
      var n := |rows| - 1;
      RunRowsEvents(handle, ev, rows[..n]);
    }
  }

  /** A run without a render error has the error rows of every row, in
      row order. */
  lemma {:induction false} RunRowsErrors(handle: Handler, errs: (nat, Row) -> seq<ErrorRow>, rows: seq<Row>)
    requires ErrorsAre(handle, errs)
    ensures RunRows(handle, rows).abort.None? ==> ErrorRows(RunRows(handle, rows).outcomes) == Collect(errs, rows)
  {
    if rows != [] {
      var n := |rows| - 1;
      RunRowsErrors(handle, errs, rows[..n]);
      var q := RunRows(handle, rows[..n]);
      var r := handle(n, rows[n]).1;
      if q.abort.None? && r.Ok? {
        LedgerSnoc(q.outcomes, r.value);
      }
    }
  }

  /** A run without a render error counts as sent one row per entry of
      `sent`. */
  lemma {:induction false} RunRowsSent<T>(handle: Handler, sent: (nat, Row) -> seq<T>, rows: seq<Row>)
    requires SentAre(handle, sent)
    ensures RunRows(handle, rows).abort.None? ==> SentCount(RunRows(handle, rows).outcomes) == |Collect(sent, rows)|
  {
    if rows != [] {
      var n := |rows| - 1;
      RunRowsSent(handle, sent, rows[..n]);
      var q := RunRows(handle, rows[..n]);
      var r := handle(n, rows[n]).1;
      if q.abort.None? && r.Ok? {
        LedgerSnoc(q.outcomes, r.value);
      }
    }
  }

  /** The events of row `i` in a run that sends: none without an address;
      otherwise its renders and, when all three rendered, the steps of its
      one session attempt. */
  function AttemptEvents(st: Settings, port: int, atts: seq<AttachmentSpec>, render: Renderer, net: Networks)
    : (nat, Row) -> seq<Event>
  {
    (i: nat, row: Row) =>
      if Strip(row.email) == "" then []
      else
        var (evs, m) := RenderRow(st, i, row.fields, render);
        if m.Err? then evs else evs + Tag(i, RowAttempt(st, port, atts, i, row, m.value, net).0)
  }

  /** The failure-table entry of row `i` in a run that sends: the stripped
      address and the error of its session attempt, when that attempt
      raised. */
  function AttemptFailures(st: Settings, port: int, atts: seq<AttachmentSpec>, render: Renderer, net: Networks)
    : (nat, Row) -> seq<ErrorRow>
  {
    (i: nat, row: Row) =>
      var m := RenderRow(st, i, row.fields, render).1;
      if Strip(row.email) == "" || m.Err? then []
      else
        var err := RowAttempt(st, port, atts, i, row, m.value, net).1;
        if err.Some? then [ErrorRow(Strip(row.email), err.value)] else []
  }

  /** The address row `i` was delivered to in a run that sends, when its
      session attempt succeeded. */
  function AttemptSuccesses(st: Settings, port: int, atts: seq<AttachmentSpec>, render: Renderer, net: Networks)
    : (nat, Row) -> seq<string>
  {
    (i: nat, row: Row) =>
      var m := RenderRow(st, i, row.fields, render).1;
      if Strip(row.email) == "" || m.Err? || RowAttempt(st, port, atts, i, row, m.value, net).1.Some? then []
      else [Strip(row.email)]
  }

  /** Outside a dry run, `do_send`'s row handling has the events, error
      rows and sends of one session attempt per addressed, rendered row. */
  lemma SendingHandlerFacts(st: Settings, port: int, atts: seq<AttachmentSpec>, render: Renderer, net: Networks)
    requires !st.dryRun
    ensures var h := RowHandler(st, port, atts, render, net);
      && EventsAre(h, AttemptEvents(st, port, atts, render, net))
      && ErrorsAre(h, AttemptFailures(st, port, atts, render, net))
      && SentAre(h, AttemptSuccesses(st, port, atts, render, net))
  {
    var h := RowHandler(st, port, atts, render, net);
    forall i, row ensures h(i, row).0 == AttemptEvents(st, port, atts, render, net)(i, row) {
      assert h(i, row) == ProcessRow(st, port, atts, i, row, render, net);
    }
    forall i, row | h(i, row).1.Ok?
      ensures AttemptFailures(st, port, atts, render, net)(i, row) == FailureRow(h(i, row).1.value)
    {
      assert h(i, row) == ProcessRow(st, port, atts, i, row, render, net);
    }
    forall i, row | h(i, row).1.Ok?
      ensures |AttemptSuccesses(st, port, atts, render, net)(i, row)| == (if IsSent(h(i, row).1.value) then 1 else 0)
    {
      assert h(i, row) == ProcessRow(st, port, atts, i, row, render, net);
    }
  }

  /** A finished run that sends makes one session attempt per addressed
      row: its events are, row by row, the renders followed by the steps
      of that row's attempt; its error rows are, in row order, the stripped
      address and error of each attempt that raised; and it counts as sent
      exactly the attempts that succeeded. */
  lemma RunDeliveries(st: Settings, uploads: seq<Upload>, rows: seq<Row>, render: Renderer, net: Networks)
    requires !st.dryRun
    ensures var (report, trace) := Run(st, uploads, rows, render, net);
      report.Finished? ==>
        var port := ParseInt(Strip(st.portText)).value;
        var atts := Attachments(uploads);
        && trace == Collect(AttemptEvents(st, port, atts, render, net), rows)
        && report.errors == Collect(AttemptFailures(st, port, atts, render, net), rows)
        && report.sent == |Collect(AttemptSuccesses(st, port, atts, render, net), rows)|
  {
    var parsed := ParseInt(Strip(st.portText));
    if parsed.Some? {
      var port, atts := parsed.value, Attachments(uploads);
      var h := RowHandler(st, port, atts, render, net);
      SendingHandlerFacts(st, port, atts, render, net);
      RunRowsEvents(h, AttemptEvents(st, port, atts, render, net), rows);
      RunRowsErrors(h, AttemptFailures(st, port, atts, render, net), rows);
      RunRowsSent(h, AttemptSuccesses(st, port, atts, render, net), rows);
      assert Run(st, uploads, rows, render, net) == Conclude(RunRows(h, rows));
    }
  }

  /** The row facts the run lemmas rely on, for `do_send`'s handler. */
  lemma RowHandlerFacts(st: Settings, port: int, atts: seq<AttachmentSpec>, render: Renderer, net: Networks)
    ensures var h := RowHandler(st, port, atts, render, net);
      TagsOwnRow(h) && BlankIsNoAddress(h) && (st.dryRun ==> NeverSends(h))
  {
  }

  /** A handler that records `NoAddress` exactly for rows whose address
      is empty. */
  ghost predicate BlankIsNoAddress(handle: Handler) {
    forall i, row :: handle(i, row).1 == Ok(NoAddress) <==> Strip(row.email) == ""
  }

  /** A handler that never reaches the server. */
  ghost predicate NeverSends(handle: Handler) {
    && (forall i, row, e :: e in handle(i, row).0 ==> e.Rendered?)
    && (forall i, row :: !(handle(i, row).1.Ok? && handle(i, row).1.value.SendFailed?))
  }

  /** Only template engine calls, no SMTP step. */
  predicate AllRendered(t: seq<Event>) {
    forall e :: e in t ==> e.Rendered?
  }

  /** The ledger of a finished run, for any handler that records
      `NoAddress` exactly for the rows without an address. */
  lemma ConcludeLedger(handle: Handler, rows: seq<Row>)
    requires BlankIsNoAddress(handle)
    ensures var report := Conclude(RunRows(handle, rows)).0;
      report.Finished? ==>
        && report.sent + report.failed == |rows|
        && report.failed == BlankRows(rows) + |report.errors|
  {
    RunRowsOutcomes(handle, rows);
    RunRowsLedger(handle, rows);
    CountsBalance(RunRows(handle, rows).outcomes);
  }

  /** A finished run counts every row once, and its failures are the rows
      without an address plus one error row per failed send. */
  lemma RunLedger(st: Settings, uploads: seq<Upload>, rows: seq<Row>, render: Renderer, net: Networks)
    ensures var report := Run(st, uploads, rows, render, net).0;
      report.Finished? ==>
        && report.sent + report.failed == |rows|
        && report.failed == BlankRows(rows) + |report.errors|
  {
    var parsed := ParseInt(Strip(st.portText));
    if parsed.Some? {
      var h := RowHandler(st, parsed.value, Attachments(uploads), render, net);
      RowHandlerFacts(st, parsed.value, Attachments(uploads), render, net);
      ConcludeLedger(h, rows);
      assert Run(st, uploads, rows, render, net) == Conclude(RunRows(h, rows));
    }
  }

  /** A dry run renders but never talks to the server; it fails exactly
      the rows without an address and sends the rest. */
  lemma DryRunSendsNothing(st: Settings, uploads: seq<Upload>, rows: seq<Row>, render: Renderer, net: Networks)
    requires st.dryRun
    ensures var (report, trace) := Run(st, uploads, rows, render, net);
      && AllRendered(trace)
      && (report.Finished? ==>
            report.errors == [] && report.failed == BlankRows(rows) && report.sent == |rows| - BlankRows(rows))
  {
    var parsed := ParseInt(Strip(st.portText));
    if parsed.Some? {
      var h := RowHandler(st, parsed.value, Attachments(uploads), render, net);
      RowHandlerFacts(st, parsed.value, Attachments(uploads), render, net);
      RunRowsDry(h, rows);
      ConcludeLedger(h, rows);
      assert Run(st, uploads, rows, render, net) == Conclude(RunRows(h, rows));
    }
  }

  /** The rows are handled in order, and a row without an address causes
      neither a render nor an SMTP step. */
  lemma RunTraceInRowOrder(st: Settings, uploads: seq<Upload>, rows: seq<Row>, render: Renderer, net: Networks)
    ensures FromAddressedRows(Run(st, uploads, rows, render, net).1, rows)
    ensures InRowOrder(Run(st, uploads, rows, render, net).1)
  {
    var parsed := ParseInt(Strip(st.portText));
    if parsed.Some? {
      var h := RowHandler(st, parsed.value, Attachments(uploads), render, net);
      RowHandlerFacts(st, parsed.value, Attachments(uploads), render, net);
      RunRowsTrace(h, rows);
      assert Run(st, uploads, rows, render, net) == Conclude(RunRows(h, rows));
    }
  }

  /** A handler that raises exactly where `raise` says, with its error. */
  ghost predicate RaisesAs(handle: Handler, raise: (nat, Row) -> Option<string>) {
    forall i, row :: (handle(i, row).1.Err? <==> raise(i, row).Some?) &&
      (handle(i, row).1.Err? ==> handle(i, row).1.error == raise(i, row).value)
  }

  /** A run stops at the first row whose handling raises, with that
      error, and finishes exactly when no row's handling raises. */
  lemma ConcludeAbort(handle: Handler, raise: (nat, Row) -> Option<string>, rows: seq<Row>)
    requires RaisesAs(handle, raise)
    ensures var report := Conclude(RunRows(handle, rows)).0;
      && (report.RenderAborted? ==>
            exists k :: 0 <= k < |rows| && raise(k, rows[k]) == Some(report.error)
              && forall j :: 0 <= j < k ==> raise(j, rows[j]).None?)
      && (report.Finished? <==> forall k :: 0 <= k < |rows| ==> raise(k, rows[k]).None?)
  {
    AbortAtFirstRaise(handle, raise, rows);
    FinishedWithoutRaise(handle, raise, rows);
  }

  /** An aborted run carries the error of the first row that raises. */
  lemma AbortAtFirstRaise(handle: Handler, raise: (nat, Row) -> Option<string>, rows: seq<Row>)
    requires RaisesAs(handle, raise)
    ensures var p := RunRows(handle, rows);
      p.abort.Some? ==>
        exists k :: 0 <= k < |rows| && raise(k, rows[k]) == p.abort
          && forall j :: 0 <= j < k ==> raise(j, rows[j]).None?
  {
    RunRowsOutcomes(handle, rows);
    var p := RunRows(handle, rows);
    if p.abort.Some? {
      var k := |p.outcomes|;
      assert raise(k, rows[k]) == p.abort;
      assert forall j :: 0 <= j < k ==> handle(j, rows[j]).1.Ok?;
    }
  }

  /** A run finishes exactly when no row raises. */
  lemma FinishedWithoutRaise(handle: Handler, raise: (nat, Row) -> Option<string>, rows: seq<Row>)
    requires RaisesAs(handle, raise)
    ensures RunRows(handle, rows).abort.None? <==> forall k :: 0 <= k < |rows| ==> raise(k, rows[k]).None?
  {
    RunRowsOutcomes(handle, rows);
    var p := RunRows(handle, rows);
    if p.abort.Some? {
      var k := |p.outcomes|;
      assert raise(k, rows[k]).Some?;
    } else {
      assert forall k :: 0 <= k < |rows| ==> handle(k, rows[k]).1.Ok?;
    }
  }

  /** `RenderError` as a function of the row, for a given configuration. */
  function RenderErrorOf(st: Settings, render: Renderer): (nat, Row) -> Option<string> {
    (i: nat, row: Row) => RenderError(st, i, row, render)
  }

  /** A template error is not caught: the run ends at the first addressed
      row whose render raises, with that error, and it finishes exactly
      when no addressed row's render raises, whatever the sends do. */
  lemma RunAbortsOnRenderError(st: Settings, uploads: seq<Upload>, rows: seq<Row>, render: Renderer, net: Networks)
    requires ParseInt(Strip(st.portText)).Some?
    ensures var report := Run(st, uploads, rows, render, net).0;
      && (report.RenderAborted? ==>
            exists k :: 0 <= k < |rows| && RenderError(st, k, rows[k], render) == Some(report.error)
              && forall j :: 0 <= j < k ==> RenderError(st, j, rows[j], render).None?)
      && (report.Finished? <==> forall k :: 0 <= k < |rows| ==> RenderError(st, k, rows[k], render).None?)
  {
    var h := RowHandler(st, ParseInt(Strip(st.portText)).value, Attachments(uploads), render, net);
    var raise := RenderErrorOf(st, render);
    assert RaisesAs(h, raise);
    ConcludeAbort(h, raise, rows);
    assert Run(st, uploads, rows, render, net) == Conclude(RunRows(h, rows));
    assert forall k :: 0 <= k < |rows| ==> raise(k, rows[k]) == RenderError(st, k, rows[k], render);
  }

  /** A failed send never ends the run: whether the run aborts, and with
      which error, does not depend on the network. */
  lemma SendFailuresNeverAbort(st: Settings, uploads: seq<Upload>, rows: seq<Row>, render: Renderer,
                               net: Networks, net': Networks)
    ensures var r, r' := Run(st, uploads, rows, render, net).0, Run(st, uploads, rows, render, net').0;
      (r.RenderAborted? <==> r'.RenderAborted?) && (r.RenderAborted? ==> r == r')
  {
    if ParseInt(Strip(st.portText)).Some? {
      RunAbortsOnRenderError(st, uploads, rows, render, net);
      RunAbortsOnRenderError(st, uploads, rows, render, net');
      var r, r' := Run(st, uploads, rows, render, net).0, Run(st, uploads, rows, render, net').0;
      if r.RenderAborted? {
        var k :| 0 <= k < |rows| && RenderError(st, k, rows[k], render) == Some(r.error)
          && forall j :: 0 <= j < k ==> RenderError(st, j, rows[j], render).None?;
        var k' :| 0 <= k' < |rows| && RenderError(st, k', rows[k'], render) == Some(r'.error)
          && forall j :: 0 <= j < k' ==> RenderError(st, j, rows[j], render).None?;
        FirstRenderErrorUnique(st, rows, render, k, k');
      }
    }
  }

  /** There is only one first row whose render raises. */
  lemma FirstRenderErrorUnique(st: Settings, rows: seq<Row>, render: Renderer, k: nat, k': nat)
    requires k < |rows| && RenderError(st, k, rows[k], render).Some?
    requires k' < |rows| && RenderError(st, k', rows[k'], render).Some?
    requires forall j :: 0 <= j < k ==> RenderError(st, j, rows[j], render).None?
    requires forall j :: 0 <= j < k' ==> RenderError(st, j, rows[j], render).None?
    ensures k == k'
  {
  }

  /** A row is handled the same whatever the pacing, batching and retry
      settings. */
  lemma ProcessRowIgnoresPacing(st: Settings, port: int, atts: seq<AttachmentSpec>, i: nat, row: Row,
                                render: Renderer, net: Networks, rate: int, batch: int, retries: int)
    ensures ProcessRow(st.(ratePerMin := rate, batchSize := batch, maxRetries := retries), port, atts, i, row, render, net)
         == ProcessRow(st, port, atts, i, row, render, net)
  {
    var st' := st.(ratePerMin := rate, batchSize := batch, maxRetries := retries);
    assert RenderRow(st', i, row.fields, render) == RenderRow(st, i, row.fields, render);
    assert SessionConfigOf(st', port) == SessionConfigOf(st, port);
  }

  /** The pacing, batching and retry settings do not change the run. */
  lemma PacingSettingsIgnored(st: Settings, uploads: seq<Upload>, rows: seq<Row>, render: Renderer, net: Networks,
                              rate: int, batch: int, retries: int)
    ensures Run(st.(ratePerMin := rate, batchSize := batch, maxRetries := retries), uploads, rows, render, net)
         == Run(st, uploads, rows, render, net)
  {
    var st' := st.(ratePerMin := rate, batchSize := batch, maxRetries := retries);
    var parsed := ParseInt(Strip(st.portText));
    if parsed.Some? {
      var atts := Attachments(uploads);
      var h', h := RowHandler(st', parsed.value, atts, render, net), RowHandler(st, parsed.value, atts, render, net);
      assert forall i, row :: h'(i, row) == h(i, row) by {
        forall i, row ensures h'(i, row) == h(i, row) {
          ProcessRowIgnoresPacing(st, parsed.value, atts, i, row, render, net, rate, batch, retries);
        }
      }
      RunRowsAgree(h', h, rows);
      assert Run(st', uploads, rows, render, net) == Conclude(RunRows(h', rows));
    }
  }

  /** A port with any character that is not white space, a digit, an
      underscore or a sign (such as "587a") is refused before any row is
      looked at. */
  lemma NonNumericPortStops(st: Settings, uploads: seq<Upload>, rows: seq<Row>, render: Renderer, net: Networks, k: nat)
    requires k < |st.portText|
    requires !IsSpace(st.portText[k]) && !IsDigit(st.portText[k]) && st.portText[k] !in "_+-"
    ensures Run(st, uploads, rows, render, net) == (BadPort, [])
  {
    StripKeeps(st.portText, k);
    ParseIntRejectsStray(Strip(st.portText), k - SkipSpace(st.portText, 0));
  }
}
