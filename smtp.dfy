/**
 * `SMTPSession`: a context manager around one SMTP connection. Entering it
 * connects (implicit TLS, or plain connect, EHLO and optional STARTTLS) and
 * logs in when both credentials are given; `send` transmits one message;
 * leaving it sends QUIT and ignores any error from that.
 *
 * The server is abstract: each protocol step is recorded in the session's
 * transcript and a `Network` oracle says whether the step succeeded or
 * which error it raised.
 */
module Smtp {
  import opened Wrappers
  import opened Mime

  /** The protocol steps the session issues through `smtplib`. */
  datatype Step =
    | ConnectImplicitTls(host: string, port: int)
    | ConnectPlain(host: string, port: int)
    | Ehlo
    | StartTls
    | Login(user: string, password: string)
    | SendMail(sender: string, recipients: seq<string>, message: Message)
    | Quit

  /** The server's answer to a step: `None` when it succeeds, or the
      message of the exception it raises. */
  type Network = Step -> Option<string>

  /** What `self.server` holds once a connection is made. */
  datatype Transport = Transport(implicitTls: bool)

  /** The arguments a session is created with. */
  datatype SessionConfig = SessionConfig(
    host: string, port: int, user: string, password: string,
    useSsl: bool, useTls: bool, fromAddr: string)

  const NoServerError := "'NoneType' object has no attribute 'sendmail'"

  /** The steps that open the transport: an implicit-TLS connect, or a
      plain connect, EHLO and, with `use_tls`, STARTTLS. */
  function TransportSteps(c: SessionConfig): (r: seq<Step>)
    ensures 1 <= |r| <= 3 && (|r| == 1 <==> c.useSsl)
    ensures r[0] == if c.useSsl then ConnectImplicitTls(c.host, c.port) else ConnectPlain(c.host, c.port)
  {
    if c.useSsl then [ConnectImplicitTls(c.host, c.port)]
    else [ConnectPlain(c.host, c.port), Ehlo] + (if c.useTls then [StartTls] else [])
  }

  /** LOGIN, when both credentials are non-empty. */
  function LoginSteps(c: SessionConfig): (r: seq<Step>)
    ensures |r| <= 1 && (r != [] <==> c.user != "" && c.password != "")
  {
    if c.user != "" && c.password != "" then [Login(c.user, c.password)] else []
  }

  /** The steps of `__enter__` when all of them succeed. */
  function ConnectPlan(c: SessionConfig): (r: seq<Step>)
    ensures 1 <= |r| <= 4 && r[0] == TransportSteps(c)[0]
  {
    TransportSteps(c) + LoginSteps(c)
  }

  /** The connection plan is fixed by the flags: with implicit TLS the
      session never calls `ehlo()` or `starttls()`, even with `use_tls`;
      a plain connect is followed by `ehlo()` and then `starttls()`
      exactly when `use_tls`; LOGIN comes last and
      only when both credentials are non-empty; nothing else is sent. */
  lemma ConnectPlanShape(c: SessionConfig)
    ensures var plan := ConnectPlan(c);
      && 1 <= |plan| <= 4
      && plan[0] == (if c.useSsl then ConnectImplicitTls(c.host, c.port) else ConnectPlain(c.host, c.port))
      && (Ehlo in plan <==> !c.useSsl)
      && (!c.useSsl ==> plan[1] == Ehlo)
      && (StartTls in plan <==> !c.useSsl && c.useTls)
      && (!c.useSsl && c.useTls ==> plan[2] == StartTls)
      && (Login(c.user, c.password) in plan <==> c.user != "" && c.password != "")
      && (c.user != "" && c.password != "" ==> plan[|plan| - 1] == Login(c.user, c.password))
      && (forall k :: 1 <= k < |plan| ==> !plan[k].ConnectPlain? && !plan[k].ConnectImplicitTls?)
      && Quit !in plan
      && (forall k :: 0 <= k < |plan| ==> !plan[k].SendMail?)
  {
  }

  /** Issues `steps` in order until one fails: the steps issued (the
      failing one included) and the error, if any. */
  function RunUntilFailure(steps: seq<Step>, net: Network): (r: (seq<Step>, Option<string>))
    ensures |r.0| <= |steps|
    ensures r.1.Some? ==> r.0 != [] && net(r.0[|r.0| - 1]) == r.1
  {
    if steps == [] then ([], None)
    else if net(steps[0]).Some? then ([steps[0]], net(steps[0]))
    else
      var (rest, err) := RunUntilFailure(steps[1..], net);
      ([steps[0]] + rest, err)
  }

  /** What a run issues: a prefix of the steps, all answered with success
      but the last, which carries the error; the whole plan exactly when
      there is no error. */
  lemma {:induction false} RunUntilFailureSpec(steps: seq<Step>, net: Network)
    ensures var (issued, err) := RunUntilFailure(steps, net);
      && |issued| <= |steps| && issued == steps[..|issued|]
      && (err.None? <==> issued == steps && forall k :: 0 <= k < |steps| ==> net(steps[k]).None?)
      && (err.Some? ==> issued != [] && net(issued[|issued| - 1]) == err)
      && (forall k :: 0 <= k < |issued| - 1 ==> net(issued[k]).None?)
  {
    if steps != [] && net(steps[0]).None? {
      RunUntilFailureSpec(steps[1..], net);
      var (rest, err) := RunUntilFailure(steps[1..], net);
      assert forall k :: 1 <= k < |steps| ==> steps[k] == steps[1..][k - 1];
      assert forall k :: 1 <= k < |rest| + 1 ==> ([steps[0]] + rest)[k] == rest[k - 1];
    }
  }

  /** One step of `RunUntilFailure`. */
  lemma RunCons(step: Step, rest: seq<Step>, net: Network)
    ensures RunUntilFailure([step] + rest, net) ==
      if net(step).Some? then ([step], net(step))
      else ([step] + RunUntilFailure(rest, net).0, RunUntilFailure(rest, net).1)
  {
    assert ([step] + rest)[1..] == rest;
  }

  /** Running two plans back to back: the second starts only when the
      first ran through. */
  lemma {:induction false} RunAppend(a: seq<Step>, b: seq<Step>, net: Network)
    ensures RunUntilFailure(a + b, net) ==
      if RunUntilFailure(a, net).1.Some? then RunUntilFailure(a, net)
      else (a + RunUntilFailure(b, net).0, RunUntilFailure(b, net).1)
  {
    if a == [] {
      assert a + b == b;
      assert a + RunUntilFailure(b, net).0 == RunUntilFailure(b, net).0;
    } else {
      assert (a + b)[0] == a[0];
      assert (a + b)[1..] == a[1..] + b;
      if net(a[0]).None? {
        RunAppend(a[1..], b, net);
        assert [a[0]] + (a[1..] + RunUntilFailure(b, net).0) == a + RunUntilFailure(b, net).0;
      }
    }
  }

  /** Two networks that answer every planned step alike give the same run. */
  lemma {:induction false} RunUntilFailureAgree(steps: seq<Step>, net: Network, net': Network)
    requires forall k :: 0 <= k < |steps| ==> net(steps[k]) == net'(steps[k])
    ensures RunUntilFailure(steps, net) == RunUntilFailure(steps, net')
  {
    if steps != [] && net(steps[0]).None? {
      assert forall k :: 0 <= k < |steps| - 1 ==> steps[1..][k] == steps[k + 1];
      RunUntilFailureAgree(steps[1..], net, net');
    }
  }

  class SmtpSession {
    const host: string
    const port: int
    const user: string
    const password: string
    const useSsl: bool
    const useTls: bool
    const fromAddr: string
    /** `self.server`: `None` until a connection is made. */
    var server: Option<Transport>
    /** Every protocol step issued through this session, in order. */
    var transcript: seq<Step>

    function Config(): SessionConfig {
      SessionConfig(host, port, user, password, useSsl, useTls, fromAddr)
    }

    constructor (c: SessionConfig)
      ensures Config() == c
      ensures server == None && transcript == []
    {
      host, port, user, password := c.host, c.port, c.user, c.password;
      useSsl, useTls, fromAddr := c.useSsl, c.useTls, c.fromAddr;
      server, transcript := None, [];
    }

    /** Sends one step to the server and reports its answer. */
    method Issue(step: Step, net: Network) returns (err: Option<string>)
      modifies this`transcript
      ensures transcript == old(transcript) + [step]
      ensures err == net(step)
    {
      transcript := transcript + [step];
      err := net(step);
    }

    /** The first half of `__enter__`: the connect (which sets
        `self.server`), then EHLO and STARTTLS on a plain connection. */
    method OpenTransport(net: Network) returns (err: Option<string>)
      modifies this`server, this`transcript
      ensures transcript == old(transcript) + RunUntilFailure(TransportSteps(Config()), net).0
      ensures err == RunUntilFailure(TransportSteps(Config()), net).1
      ensures server == if net(TransportSteps(Config())[0]).None? then Some(Transport(useSsl)) else old(server)
    {
      if useSsl {
        err := OpenImplicitTls(net);
      } else {
        err := OpenPlain(net);
      }
    }

    /** `SMTP_SSL(host, port)`. */
    method OpenImplicitTls(net: Network) returns (err: Option<string>)
      requires useSsl
      modifies this`server, this`transcript
      ensures transcript == old(transcript) + RunUntilFailure(TransportSteps(Config()), net).0
      ensures err == RunUntilFailure(TransportSteps(Config()), net).1
      ensures server == if net(ConnectImplicitTls(host, port)).None? then Some(Transport(true)) else old(server)
    {
      RunCons(ConnectImplicitTls(host, port), [], net);
      err := Issue(ConnectImplicitTls(host, port), net);
      if err.None? {
        server := Some(Transport(true));
      }
    }

    /** `SMTP(host, port)`, EHLO, and STARTTLS with `use_tls`. */
    method OpenPlain(net: Network) returns (err: Option<string>)
      requires !useSsl
      modifies this`server, this`transcript
      ensures transcript == old(transcript) + RunUntilFailure(TransportSteps(Config()), net).0
      ensures err == RunUntilFailure(TransportSteps(Config()), net).1
      ensures server == if net(ConnectPlain(host, port)).None? then Some(Transport(false)) else old(server)
    {
      ghost var rest := [Ehlo] + (if useTls then [StartTls] else []);
      assert TransportSteps(Config()) == [ConnectPlain(host, port)] + rest;
      RunCons(ConnectPlain(host, port), rest, net);
      err := Issue(ConnectPlain(host, port), net);
      if err.None? {
        server := Some(Transport(false));
        err := Greet(net);
      }
    }

    /** EHLO on a fresh plain connection, then STARTTLS with `use_tls`. */
    method Greet(net: Network) returns (err: Option<string>)
      modifies this`transcript
      ensures var rest := [Ehlo] + (if useTls then [StartTls] else []);
        transcript == old(transcript) + RunUntilFailure(rest, net).0 && err == RunUntilFailure(rest, net).1
    {
      ghost var tls := if useTls then [StartTls] else [];
      RunCons(Ehlo, tls, net);
      err := Issue(Ehlo, net);
      if err.None? && useTls {
        RunCons(StartTls, [], net);
        err := Issue(StartTls, net);
      }
    }

    /** `__enter__`: open the transport, then LOGIN when both credentials
        are given; the first failing step raises and ends it. */
    method Enter(net: Network) returns (err: Option<string>)
      modifies this`server, this`transcript
      ensures transcript == old(transcript) + RunUntilFailure(ConnectPlan(Config()), net).0
      ensures err == RunUntilFailure(ConnectPlan(Config()), net).1
      ensures server == if net(ConnectPlan(Config())[0]).None? then Some(Transport(useSsl)) else old(server)
    {
      RunAppend(TransportSteps(Config()), LoginSteps(Config()), net);
      RunUntilFailureSpec(TransportSteps(Config()), net);
      RunCons(Login(user, password), [], net);
      err := OpenTransport(net);
      if err.None? && user != "" && password != "" {
        err := Issue(Login(user, password), net);
      }
    }

    /** `__exit__`: QUIT when a connection exists; its error is swallowed. */
    method Exit(net: Network)
      modifies this`transcript
      ensures transcript == old(transcript) + (if server.Some? then [Quit] else [])
    {
      if server.Some? {
        var ignored := Issue(Quit, net);
      }
    }

    /** `send`: assembles the message and hands it to the server for the
        one recipient. Without a connection the call raises. */
    method Send(to: string, subject: Option<string>, html: Option<string>, text: Option<string>,
                headers: seq<(string, string)>, atts: seq<AttachmentSpec>, net: Network)
      returns (err: Option<string>)
      modifies this`transcript
      ensures server.None? ==> transcript == old(transcript) && err == Some(NoServerError)
      ensures server.Some? ==>
        var step := SendMail(fromAddr, [to], ComposeMessage(fromAddr, to, subject, html, text, headers, atts));
        transcript == old(transcript) + [step] && err == net(step)
    {
      var msg := BuildMessage(fromAddr, to, subject, html, text, headers, atts);
      if server.None? {
        err := Some(NoServerError);
        return;
      }
      err := Issue(SendMail(fromAddr, [to], msg), net);
    }

    /** The rest of the `with` block once entered: `send`, then
        `__exit__`, which says QUIT on the open connection. */
    method SendThenExit(to: string, subject: Option<string>, html: Option<string>, text: Option<string>,
                        headers: seq<(string, string)>, atts: seq<AttachmentSpec>, net: Network)
      returns (err: Option<string>)
      requires server.Some?
      modifies this`transcript
      ensures var step := SendStep(Config(), to, subject, html, text, headers, atts);
        transcript == old(transcript) + [step, Quit] && err == net(step)
    {
      err := Send(to, subject, html, text, headers, atts, net);
      Exit(net);
    }
  }

  /** The SendMail step for one recipient. */
  function SendStep(c: SessionConfig, to: string, subject: Option<string>, html: Option<string>,
                    text: Option<string>, headers: seq<(string, string)>, atts: seq<AttachmentSpec>): Step
  {
    SendMail(c.fromAddr, [to], ComposeMessage(c.fromAddr, to, subject, html, text, headers, atts))
  }

  /** One `with SMTPSession(...) as mailer: mailer.send(...)` block: the
      steps it issues and the error that leaves it. When entering fails the
      error leaves at once and `__exit__` does not run; otherwise the
      message is sent and QUIT follows, whatever the send did. */
  function SessionAttempt(c: SessionConfig, to: string, subject: Option<string>, html: Option<string>,
                          text: Option<string>, headers: seq<(string, string)>, atts: seq<AttachmentSpec>,
                          net: Network): (r: (seq<Step>, Option<string>))
    ensures r.0 != [] && r.0[0] == ConnectPlan(c)[0] && |r.0| <= |ConnectPlan(c)| + 2
    ensures r.1.None? ==> r.0 == ConnectPlan(c) + [SendStep(c, to, subject, html, text, headers, atts), Quit]
  {
    RunUntilFailureSpec(ConnectPlan(c), net);
    var (entered, err) := RunUntilFailure(ConnectPlan(c), net);
    if err.Some? then (entered, err)
    else
      var send := SendStep(c, to, subject, html, text, headers, atts);
      (entered + [send, Quit], net(send))
  }

  /** Opens a fresh session, sends one message through it and leaves it. */
  method Deliver(c: SessionConfig, to: string, subject: Option<string>, html: Option<string>,
                 text: Option<string>, headers: seq<(string, string)>, atts: seq<AttachmentSpec>,
                 net: Network)
    returns (steps: seq<Step>, err: Option<string>)
    ensures (steps, err) == SessionAttempt(c, to, subject, html, text, headers, atts, net)
  {
    var session := new SmtpSession(c);
    RunUntilFailureSpec(ConnectPlan(c), net);
    ghost var entered := RunUntilFailure(ConnectPlan(c), net);
    err := session.Enter(net);
    assert session.Config() == c && session.transcript == entered.0 && err == entered.1;
    if err.None? {
      assert net(ConnectPlan(c)[0]).None?;
      var send := SendStep(c, to, subject, html, text, headers, atts);
      err := session.SendThenExit(to, subject, html, text, headers, atts, net);
      assert session.transcript == entered.0 + [send, Quit] && err == net(send);
    }
    steps := session.transcript;
  }

  /** Every attempt starts with the connect step of the plan and never
      connects again: one fresh connection per attempt. */
  lemma SessionAttemptConnectsOnce(c: SessionConfig, to: string, subject: Option<string>, html: Option<string>,
                                   text: Option<string>, headers: seq<(string, string)>, atts: seq<AttachmentSpec>,
                                   net: Network)
    ensures var steps := SessionAttempt(c, to, subject, html, text, headers, atts, net).0;
      && steps != [] && steps[0] == ConnectPlan(c)[0]
      && (forall k :: 1 <= k < |steps| ==> !steps[k].ConnectPlain? && !steps[k].ConnectImplicitTls?)
  {
    var plan := ConnectPlan(c);
    ConnectsFirstOnly(c);
    RunUntilFailureSpec(plan, net);
    var entered := RunUntilFailure(plan, net).0;
    assert forall k :: 0 <= k < |entered| ==> entered[k] == plan[k];
  }

  /** QUIT is sent exactly when the whole plan succeeded, and then the
      attempt is the plan, the message and QUIT; the attempt succeeds
      exactly when the plan and the message both do. */
  lemma SessionAttemptOutcome(c: SessionConfig, to: string, subject: Option<string>, html: Option<string>,
                              text: Option<string>, headers: seq<(string, string)>, atts: seq<AttachmentSpec>,
                              net: Network)
    ensures var (steps, err) := SessionAttempt(c, to, subject, html, text, headers, atts, net);
      var plan := ConnectPlan(c);
      var send := SendStep(c, to, subject, html, text, headers, atts);
      var entered := forall k :: 0 <= k < |plan| ==> net(plan[k]).None?;
      && (Quit in steps <==> entered)
      && (entered ==> steps == plan + [send, Quit])
      && (err.None? <==> entered && net(send).None?)
  {
    var plan := ConnectPlan(c);
    assert Quit !in plan;
    RunUntilFailureSpec(plan, net);
    var entered := RunUntilFailure(plan, net).0;
    assert forall k :: 0 <= k < |entered| ==> entered[k] == plan[k];
  }

  /** The plan connects with its first step and never again. */
  lemma ConnectsFirstOnly(c: SessionConfig)
    ensures var plan := ConnectPlan(c);
      && plan != [] && (plan[0].ConnectPlain? || plan[0].ConnectImplicitTls?)
      && forall k :: 1 <= k < |plan| ==> !plan[k].ConnectPlain? && !plan[k].ConnectImplicitTls?
  {
  }

  /** Errors from QUIT never leave the block: two networks that differ only
      in how they answer QUIT give the same attempt. */
  lemma QuitErrorSwallowed(c: SessionConfig, to: string, subject: Option<string>, html: Option<string>,
                           text: Option<string>, headers: seq<(string, string)>, atts: seq<AttachmentSpec>,
                           net: Network, net': Network)
    requires forall s :: s != Quit ==> net(s) == net'(s)
    ensures SessionAttempt(c, to, subject, html, text, headers, atts, net)
         == SessionAttempt(c, to, subject, html, text, headers, atts, net')
  {
    var plan := ConnectPlan(c);
    ConnectPlanShape(c);
    assert forall k :: 0 <= k < |plan| ==> plan[k] != Quit;
    RunUntilFailureAgree(plan, net, net');
  }
}
