/** The bulk-send route as a whole (app/api/send/route.ts, `POST`): the
    password gate, the SMTP gate, Markdown rendering, recipient normalisation
    and the dispatch loop, with the outer `catch` turning anything thrown
    before the stream opens into a 500 response. */
module SendRoute {
  import opened Js
  import opened Mailer
  import opened Normalise
  import opened Dispatch

  /** The fields destructured from the request body. */
  datatype Request = Request(recipients: Value, subject: Value, content: Value, password: Value)

  /** What the route answers: a JSON error with a status, or the event
      stream together with the messages handed to the transport. */
  datatype Response =
    | Refused(status: nat, error: string)
    | EventStream(transport: TransportConfig, mails: seq<Mail>, events: seq<Event>, closed: bool)

  /** `password === process.env.ADMIN_PASSWORD` */
  predicate Authorised(env: Env, password: Value) {
    StrictEq(password, EnvValue(env, "ADMIN_PASSWORD"))
  }

  /** SMTP_HOST, SMTP_USER and SMTP_PASS are all set and non-empty. */
  predicate SmtpConfigured(env: Env) {
    Truthy(EnvValue(env, "SMTP_HOST")) && Truthy(EnvValue(env, "SMTP_USER")) && Truthy(EnvValue(env, "SMTP_PASS"))
  }

  /** The SMTP gate in terms of the environment itself: each of the three
      variables is present and not the empty string. */
  lemma SmtpGate(env: Env)
    ensures SmtpConfigured(env) <==>
      ("SMTP_HOST" in env && env["SMTP_HOST"] != [])
      && ("SMTP_USER" in env && env["SMTP_USER"] != [])
      && ("SMTP_PASS" in env && env["SMTP_PASS"] != [])
  {
  }

  /** The body was read and both gates let the request through. */
  predicate Admitted(env: Env, body: Try<Request>) {
    body.Ok? && Authorised(env, body.value.password) && SmtpConfigured(env)
  }

  /** `error.message || 'Internal Server Error'` */
  function ServerError(message: string): (r: string)
    ensures r != []
    ensures message != [] ==> r == message
  {
    OrDefault(message, "Internal Server Error")
  }

  /** Handles one request. `body` is the parsed request body or the error
      parsing it threw; `render` is the Markdown renderer; `envelope` is the
      page markup around every body; `transport` and `clock` are as for
      `Dispatch.Stream`. */
  method Post(env: Env, body: Try<Request>, render: Value -> Try<string>, envelope: Envelope,
              transport: (nat, Mail) -> Delivery, clock: nat -> string)
    returns (resp: Response)
    ensures body.Throw? ==> resp == Refused(500, ServerError(body.message))
    ensures body.Ok? && !Authorised(env, body.value.password) ==> resp == Refused(401, "Unauthorized")
    ensures body.Ok? && Authorised(env, body.value.password) && !SmtpConfigured(env) ==>
      resp == Refused(500, "SMTP configuration missing")
    ensures Admitted(env, body) && render(body.value.content).Throw? ==>
      resp == Refused(500, ServerError(render(body.value.content).message))
    ensures Admitted(env, body) && render(body.value.content).Ok? && NormaliseRecipients(body.value.recipients).Throw? ==>
      resp == Refused(500, ServerError(NormaliseRecipients(body.value.recipients).message))
    ensures resp.EventStream? <==>
      Admitted(env, body) && render(body.value.content).Ok? && NormaliseRecipients(body.value.recipients).Ok?
    ensures resp.EventStream? ==>
      var job := Job(Sender(env), body.value.subject, render(body.value.content).value, envelope);
      && resp.transport == TransportFor(env)
      && Planned(job, Addressed(Reached(NormaliseRecipients(body.value.recipients).value)), resp.mails)
      && |resp.events| == |resp.mails| + (if resp.closed then 1 else 0)
      && Reported(resp.mails, resp.events[..|resp.mails|], transport, clock)
      && (resp.closed ==> resp.events[|resp.mails|] == Done)
    ensures resp.EventStream? ==>
      forall j :: 0 <= j < |resp.mails| ==>
        resp.mails[j].from == Sender(env) && resp.mails[j].subject == body.value.subject
  {
    if body.Throw? {
      return Refused(500, ServerError(body.message));
    }
    var req := body.value;
    if !Authorised(env, req.password) {
      return Refused(401, "Unauthorized");
    }
    if !SmtpConfigured(env) {
      return Refused(500, "SMTP configuration missing");
    }
    var html := render(req.content);
    if html.Throw? {
      return Refused(500, ServerError(html.message));
    }
    var list := NormaliseRecipients(req.recipients);
    if list.Throw? {
      return Refused(500, ServerError(list.message));
    }
    var job := Job(Sender(env), req.subject, html.value, envelope);
    var mails, events, closed := Stream(job, list.value, transport, clock);
    resp := EventStream(TransportFor(env), mails, events, closed);
  }

  /** With ADMIN_PASSWORD unset, a request that leaves out the password
      compares `undefined === undefined` and passes the gate, while any
      password that is given is refused. */
  lemma UnsetPasswordGate(env: Env, password: Value)
    requires "ADMIN_PASSWORD" !in env
    ensures Authorised(env, password) <==> password == Undefined
  {
  }

  /** With ADMIN_PASSWORD set, exactly that string passes the gate. */
  lemma SetPasswordGate(env: Env, password: Value)
    requires "ADMIN_PASSWORD" in env
    ensures Authorised(env, password) <==> password == Str(env["ADMIN_PASSWORD"])
  {
  }
}
