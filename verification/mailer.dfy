/** The outbound mail transport as both routes that send mail configure it
    (app/api/send/route.ts and app/api/auth/otp/route.ts build the same
    transport). Delivery itself is an oracle: it either succeeds or fails with
    an error message. */
module Mailer {
  import opened Js

  /** The settings handed to the transport factory. */
  datatype TransportConfig = TransportConfig(host: Value, port: int, secure: bool, user: Value, pass: Value)

  /** One message handed to the transport. */
  datatype Mail = Mail(from: Value, to: Value, subject: Value, html: string)

  /** The fixed page markup a message body is placed into: everything
      before the body and everything after it. */
  datatype Envelope = Envelope(head: string, tail: string)

  /** What the transport reports for one message. */
  datatype Delivery = Delivered | Rejected(message: string)

  const DefaultPort := 587
  const ImplicitTlsPort := 465

  /** `Number(process.env.SMTP_PORT)`; `None` stands for `NaN` (an unset
      variable or text that is not a number). */
  function PortNumber(env: Env): Option<int> {
    if "SMTP_PORT" in env then ToNumber(env["SMTP_PORT"]) else None
  }

  /** The transport settings: the port is the configured number unless that is
      0 or not a number, in which case it is 587; TLS from the first byte is
      used exactly on port 465. */
  function TransportFor(env: Env): (t: TransportConfig)
    ensures PortNumber(env).Some? && PortNumber(env).value != 0 ==> t.port == PortNumber(env).value
    ensures t.secure <==> PortNumber(env) == Some(ImplicitTlsPort)
    ensures t.secure <==> t.port == ImplicitTlsPort
    ensures PortNumber(env).None? || PortNumber(env) == Some(0) ==> t.port == DefaultPort && !t.secure
    ensures t.host == EnvValue(env, "SMTP_HOST") && t.user == EnvValue(env, "SMTP_USER") && t.pass == EnvValue(env, "SMTP_PASS")
  {
    var n := PortNumber(env);
    TransportConfig(
      EnvValue(env, "SMTP_HOST"),
      if n.Some? && n.value != 0 then n.value else DefaultPort,
      n == Some(ImplicitTlsPort),
      EnvValue(env, "SMTP_USER"),
      EnvValue(env, "SMTP_PASS"))
  }

  /** `SMTP_FROM || SMTP_USER`: the sender of every message. */
  function Sender(env: Env): (v: Value)
    ensures "SMTP_FROM" in env && env["SMTP_FROM"] != "" ==> v == Str(env["SMTP_FROM"])
    ensures !("SMTP_FROM" in env && env["SMTP_FROM"] != "") ==> v == EnvValue(env, "SMTP_USER")
  {
    Or(EnvValue(env, "SMTP_FROM"), EnvValue(env, "SMTP_USER"))
  }

  /** A port written out in decimal is used as it is, and is secure exactly
      when it is 465. */
  lemma DecimalPortUsed(env: Env, n: int)
    requires n != 0 && "SMTP_PORT" in env && env["SMTP_PORT"] == Decimal(n)
    ensures TransportFor(env).port == n
    ensures TransportFor(env).secure <==> n == 465
  {
    NumberOfDecimal(n);
  }

  /** An unset, empty or non-numeric port falls back to 587 without TLS. */
  lemma PortFallback(env: Env)
    requires "SMTP_PORT" !in env || Trim(env["SMTP_PORT"]) == "" || ToNumber(env["SMTP_PORT"]).None?
    ensures TransportFor(env).port == 587 && !TransportFor(env).secure
  {
  }
}
