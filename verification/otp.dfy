/** The one-time-password route (app/api/auth/otp/route.ts): `POST` issues a
    six-digit code, stores it for five minutes under the requesting address
    and mails it to the configured OTP address; `PUT` checks a code once. */
module Otp {
  import opened Js
  import opened Mailer

  /** A stored code and the time, in milliseconds, after which it is void. */
  datatype Entry = Entry(code: string, expires: int)

  /** The in-memory `otpStore`, keyed by the `email` field of the request. */
  type Store = map<Value, Entry>

  /** Five minutes, in milliseconds. */
  const Lifetime := 300000

  const Subject := "\U{767B}\U{5F55}\U{9A8C}\U{8BC1}\U{7801} - NoreplySender"

  /** A `Map` finds a primitive key by value; an array or object key is
      compared by identity, and a key parsed from a later request is never
      the same object. */
  predicate Findable(key: Value) {
    !key.Arr? && !key.Obj?
  }

  /** `otpStore.get(email)` */
  function Find(store: Store, email: Value): (r: Option<Entry>)
    ensures r.Some? <==> Findable(email) && email in store
    ensures r.Some? ==> r.value == store[email]
  {
    if Findable(email) && email in store then Some(store[email]) else None
  }

  /** `otpStore.set(email, entry)`, as far as later lookups can tell. */
  function Remember(store: Store, email: Value, e: Entry): (r: Store)
    ensures Findable(email) ==> Find(r, email) == Some(e)
    ensures forall k :: k != email ==> Find(r, k) == Find(store, k)
  {
    if Findable(email) then store[email := e] else store
  }

  /** `otpStore.delete(email)` */
  function Forget(store: Store, email: Value): (r: Store)
    ensures Find(r, email).None?
    ensures forall k :: k != email ==> Find(r, k) == Find(store, k)
  {
    store - {email}
  }

  /** `Math.floor(100000 + Math.random() * 900000).toString()`, where `draw`
      is `Math.floor(Math.random() * 900000)`. */
  function Code(draw: nat): (c: string)
    requires draw < 900000
    ensures |c| == 6 && AllDigits(c)
    ensures ToNumber(c) == Some(100000 + draw)
  {
    SixDigitBounds();
    NatDecimalLength(100000 + draw, 6);
    NumberOfDecimal(100000 + draw);
    Decimal(100000 + draw)
  }

  lemma SixDigitBounds()
    ensures Pow10(5) == 100000 && Pow10(6) == 1000000
  {
    assert Pow10(1) == 10;
    assert Pow10(2) == 100;
    assert Pow10(3) == 1000;
    assert Pow10(4) == 10000;
  }

  // ---------------------------------------------------------------------------
  // Masking the OTP address: `otpEmail.replace(/(.{2}).*(@.*)/, '$1***$2')`

  /** The characters `.` does not match. */
  predicate IsLineTerminator(c: char) {
    c == '\n' || c == '\r' || c == '\U{2028}' || c == '\U{2029}'
  }

  /** The end of the line that position `p` is on. */
  function LineEnd(s: string, p: nat): (e: nat)
    requires p <= |s|
    ensures p <= e <= |s|
    ensures forall k :: p <= k < e ==> !IsLineTerminator(s[k])
    ensures e < |s| ==> IsLineTerminator(s[e])
    decreases |s| - p
  {
    if p == |s| || IsLineTerminator(s[p]) then p else LineEnd(s, p + 1)
  }

  /** The last `@` in `s[lo..hi]`. */
  function LastAt(s: string, lo: nat, hi: nat): (r: Option<nat>)
    requires lo <= hi <= |s|
    ensures r.None? <==> forall k :: lo <= k < hi ==> s[k] != '@'
    ensures r.Some? ==> lo <= r.value < hi && s[r.value] == '@' && forall k :: r.value < k < hi ==> s[k] != '@'
    decreases hi - lo
  {
    if lo == hi then None
    else if s[hi - 1] == '@' then Some(hi - 1)
    else LastAt(s, lo, hi - 1)
  }

  /** Whether the pattern matches from position `p`, and if so where its
      `@` group starts: two characters, then the last `@` of the line. */
  function MatchAt(s: string, p: nat): (r: Option<nat>)
    requires p <= |s|
    ensures r.Some? ==> p + 2 <= r.value < |s| && s[r.value] == '@'
  {
    var e := LineEnd(s, p);
    if p + 2 <= e then LastAt(s, p + 2, e) else None
  }

  /** `r` is `s` unchanged, or `s` with the two characters ending at some
      position kept, then `***`, then everything from an `@` on. */
  ghost predicate MaskedForm(s: string, r: string) {
    r == s || exists q: nat, a: nat :: MaskedAt(s, r, q, a)
  }

  /** `r` keeps `s` up to `q + 2`, then `***`, then `s` from its `@` at `a`. */
  predicate MaskedAt(s: string, r: string, q: nat, a: nat) {
    q + 2 <= a < |s| && s[a] == '@' && r == s[..q + 2] + "***" + s[a..]
  }

  /** The first match at or after `p` replaced, or `s` unchanged. */
  function MaskFrom(s: string, p: nat): (r: string)
    requires p <= |s|
    ensures MaskedForm(s, r)
    decreases |s| - p
  {
    if p == |s| then s
    else
      var a := MatchAt(s, p);
      if a.Some? then
        var r := s[..p + 2] + "***" + s[a.value..];
        assert MaskedAt(s, r, p, a.value);
        r
      else MaskFrom(s, p + 1)
  }

  /** The masked OTP address returned to the client. */
  function Mask(s: string): (r: string)
    ensures MaskedForm(s, r)
  {
    MaskFrom(s, 0)
  }

  /** A one-line address with at least two characters before its last `@`
      keeps those two characters and everything from that `@` on. */
  lemma MaskAddress(s: string, a: nat)
    requires forall k :: 0 <= k < |s| ==> !IsLineTerminator(s[k])
    requires 2 <= a < |s| && s[a] == '@' && forall k :: a < k < |s| ==> s[k] != '@'
    ensures Mask(s) == s[..2] + "***" + s[a..]
  {
    assert LineEnd(s, 0) == |s|;
    assert MatchAt(s, 0) == Some(a);
  }

  /** A one-line address with no `@` after its first two characters is
      returned as it is. */
  lemma {:induction false} MaskUnmatched(s: string, p: nat)
    requires p <= |s|
    requires forall k :: 0 <= k < |s| ==> !IsLineTerminator(s[k])
    requires forall k :: 2 <= k < |s| ==> s[k] != '@'
    ensures MaskFrom(s, p) == s
    decreases |s| - p
  {
    if p < |s| {
      assert LineEnd(s, p) == |s|;
      assert MatchAt(s, p).None?;
      MaskUnmatched(s, p + 1);
    }
  }

  // ---------------------------------------------------------------------------
  // Issuing a code

  datatype IssueResponse =
    | NotRequired
    | CodeSent(otpEmail: string)
    | IssueError(status: nat, error: string)

  /** The store after the request, and the response. */
  datatype Issued = Issued(store: Store, resp: IssueResponse)

  /** The message carrying the code to the OTP address; `page` is the fixed
      markup around the code. */
  function CodeMail(env: Env, otpEmail: string, code: string, page: Envelope): (m: Mail)
    ensures m.to == Str(otpEmail) && m.from == Sender(env) && m.subject == Str(Subject)
    ensures m.html == page.head + code + page.tail
  {
    Mail(Sender(env), Str(otpEmail), Str(Subject), page.head + code + page.tail)
  }

  /** `POST`. `email` is the `email` field of the parsed body or the error
      reading the body threw; `draw` stands for the random number, `now` for
      `Date.now()`, and `send` for the transport. */
  function Issue(env: Env, store: Store, email: Try<Value>, draw: nat, now: int,
                 page: Envelope, send: Mail -> Delivery): (r: Issued)
    requires draw < 900000
    ensures email.Throw? ==> r == Issued(store, IssueError(500, OrDefault(email.message, "Failed to send OTP")))
    ensures email.Ok? && EnvValue(env, "OTP_ENABLE") != Str("1") ==> r == Issued(store, NotRequired)
    ensures email.Ok? && EnvValue(env, "OTP_ENABLE") == Str("1") && !Truthy(EnvValue(env, "OTP_EMAIL")) ==>
      r == Issued(store, IssueError(500, "OTP email not configured"))
    ensures email.Ok? && EnvValue(env, "OTP_ENABLE") == Str("1") && Truthy(EnvValue(env, "OTP_EMAIL")) ==>
      && r.store == Remember(store, email.value, Entry(Code(draw), now + Lifetime))
      && (send(CodeMail(env, env["OTP_EMAIL"], Code(draw), page)).Delivered? ==> r.resp == CodeSent(Mask(env["OTP_EMAIL"])))
      && (send(CodeMail(env, env["OTP_EMAIL"], Code(draw), page)).Rejected? ==>
          r.resp == IssueError(500, OrDefault(send(CodeMail(env, env["OTP_EMAIL"], Code(draw), page)).message, "Failed to send OTP")))
  {
    if email.Throw? then
      Issued(store, IssueError(500, OrDefault(email.message, "Failed to send OTP")))
    else if EnvValue(env, "OTP_ENABLE") != Str("1") then Issued(store, NotRequired)
    else if !Truthy(EnvValue(env, "OTP_EMAIL")) then Issued(store, IssueError(500, "OTP email not configured"))
    else
      var otpEmail := env["OTP_EMAIL"];
      var code := Code(draw);
      var store' := Remember(store, email.value, Entry(code, now + Lifetime));
      match send(CodeMail(env, otpEmail, code, page))
      case Delivered => Issued(store', CodeSent(Mask(otpEmail)))
      case Rejected(msg) => Issued(store', IssueError(500, OrDefault(msg, "Failed to send OTP")))
  }

  // ---------------------------------------------------------------------------
  // Verifying a code

  datatype Verdict =
    | Valid
    | Invalid(error: string)

  /** The store after the check, and its verdict. */
  datatype Checked = Checked(store: Store, verdict: Verdict)

  /** `PUT` once the body is read: absent, then expired, then wrong code,
      checked in that order; an expired entry and a used one are removed, a
      wrong guess leaves the entry in place. */
  function Verify(store: Store, email: Value, otp: Value, now: int): (r: Checked)
    ensures Find(store, email).None? ==> r == Checked(store, Invalid("OTP not found or expired"))
    ensures Find(store, email).Some? && now > store[email].expires ==>
      r == Checked(Forget(store, email), Invalid("OTP expired"))
    ensures Find(store, email).Some? && now <= store[email].expires && otp != Str(store[email].code) ==>
      r == Checked(store, Invalid("Invalid OTP"))
    ensures r.verdict.Valid? <==>
      Find(store, email).Some? && now <= store[email].expires && otp == Str(store[email].code)
    ensures r.verdict.Valid? ==> r.store == Forget(store, email)
    ensures r.store == store || r.store == Forget(store, email)
  {
    var stored := Find(store, email);
    if stored.None? then Checked(store, Invalid("OTP not found or expired"))
    else if now > stored.value.expires then Checked(Forget(store, email), Invalid("OTP expired"))
    else if !StrictEq(Str(stored.value.code), otp) then Checked(store, Invalid("Invalid OTP"))
    else Checked(Forget(store, email), Valid)
  }

  /** The fields destructured from a `PUT` body. */
  datatype Attempt = Attempt(email: Value, otp: Value)

  datatype VerifyResponse =
    | Verdict(verdict: Verdict)
    | VerifyError(status: nat, error: string)

  /** `PUT`, including the body that could not be read. */
  function VerifyRequest(store: Store, body: Try<Attempt>, now: int): (r: (Store, VerifyResponse))
    ensures body.Throw? ==> r == (store, VerifyError(500, OrDefault(body.message, "Failed to verify OTP")))
    ensures body.Ok? ==>
      var c := Verify(store, body.value.email, body.value.otp, now);
      r == (c.store, Verdict(c.verdict))
  {
    if body.Throw? then (store, VerifyError(500, OrDefault(body.message, "Failed to verify OTP")))
    else
      var c := Verify(store, body.value.email, body.value.otp, now);
      (c.store, Verdict(c.verdict))
  }

  /** Checking one address never changes what is stored for another. */
  lemma VerifyIsolated(store: Store, email: Value, otp: Value, now: int, other: Value)
    requires other != email
    ensures Find(Verify(store, email, otp, now).store, other) == Find(store, other)
  {
  }

  /** A code is good for one use: after a successful check, the next check
      for the same address finds nothing, whatever code it brings. */
  lemma SingleUse(store: Store, email: Value, otp: Value, now: int, otp': Value, later: int)
    requires Verify(store, email, otp, now).verdict.Valid?
    ensures Verify(Verify(store, email, otp, now).store, email, otp', later) ==
      Checked(Verify(store, email, otp, now).store, Invalid("OTP not found or expired"))
  {
  }

  /** Once a code has been issued (whether or not its mail went out), that
      code is accepted up to and including the expiry instant. */
  lemma IssueThenVerify(env: Env, store: Store, email: Value, draw: nat, now: int,
                        page: Envelope, send: Mail -> Delivery, t: int)
    requires draw < 900000 && Findable(email)
    requires EnvValue(env, "OTP_ENABLE") == Str("1") && Truthy(EnvValue(env, "OTP_EMAIL"))
    requires t <= now + Lifetime
    ensures Verify(Issue(env, store, Ok(email), draw, now, page, send).store, email, Str(Code(draw)), t).verdict == Valid
  {
  }

  /** One millisecond after the expiry instant the code is refused and
      dropped. */
  lemma IssueThenExpire(env: Env, store: Store, email: Value, draw: nat, now: int,
                        page: Envelope, send: Mail -> Delivery, otp: Value, t: int)
    requires draw < 900000 && Findable(email)
    requires EnvValue(env, "OTP_ENABLE") == Str("1") && Truthy(EnvValue(env, "OTP_EMAIL"))
    requires t > now + Lifetime
    ensures var s := Issue(env, store, Ok(email), draw, now, page, send).store;
      Verify(s, email, otp, t) == Checked(Forget(s, email), Invalid("OTP expired"))
  {
  }

  /** A code sent as a JSON number never matches the stored string. */
  lemma NumericCodeRefused(store: Store, email: Value, n: int, now: int)
    ensures !Verify(store, email, Num(n), now).verdict.Valid?
  {
  }

  /** A wrong guess does not burn the code: the right one still works
      afterwards, until it expires. */
  lemma RetryAfterMismatch(store: Store, email: Value, wrong: Value, now: int, later: int)
    requires Find(store, email).Some? && wrong != Str(store[email].code)
    requires now <= later <= store[email].expires
    ensures Verify(store, email, wrong, now).verdict == Invalid("Invalid OTP")
    ensures Verify(Verify(store, email, wrong, now).store, email, Str(store[email].code), later).verdict == Valid
  {
  }
}
