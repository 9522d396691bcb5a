/** The dispatch loop of the bulk-send route (app/api/send/route.ts, the
    stream's `start`): one message and one event per recipient that has an
    address, in list order, then a single completion marker. */
module Dispatch {
  import opened Js
  import opened Placeholders
  import opened Mailer

  /** A frame of the event stream. */
  datatype Event =
    | Sent(email: Value, timestamp: string)
    | Failed(email: Value, error: string, timestamp: string)
    | Done

  /** What every message of one job shares. */
  datatype Job = Job(from: Value, subject: Value, html: string, envelope: Envelope)

  /** `recipient.email` is truthy. Only an object can have that property. */
  predicate HasEmail(x: Value) {
    x.Obj? && Truthy(Get(x.fields, "email"))
  }

  /** The entries the loop gets through: reading `.email` of `null` or
      `undefined` throws and ends the loop there. */
  function Reached(list: seq<Value>): (r: seq<Value>)
    ensures r <= list
    ensures forall i :: 0 <= i < |r| ==> !Nullish(r[i])
    ensures |r| < |list| ==> Nullish(list[|r|])
    decreases |list|
  {
    if list == [] || Nullish(list[0]) then [] else [list[0]] + Reached(list[1..])
  }

  /** The entries, in order, that have an address. */
  function Addressed(xs: seq<Value>): (r: seq<Value>)
    ensures |r| <= |xs|
    ensures forall i :: 0 <= i < |r| ==> HasEmail(r[i])
    decreases |xs|
  {
    if xs == [] then []
    else Addressed(xs[..|xs| - 1]) + (if HasEmail(xs[|xs| - 1]) then [xs[|xs| - 1]] else [])
  }

  /** Selecting distributes over concatenation, so the selected recipients
      keep the order of the list. */
  lemma {:induction false} AddressedAppend(xs: seq<Value>, ys: seq<Value>)
    ensures Addressed(xs + ys) == Addressed(xs) + Addressed(ys)
    decreases |ys|
  {
    if ys == [] {
      assert xs + ys == xs;
    } else {
      var zs := xs + ys;
      assert zs[..|zs| - 1] == xs + ys[..|ys| - 1];
      AddressedAppend(xs, ys[..|ys| - 1]);
    }
  }

  /** One more entry adds itself to the selection exactly when it has an address. */
  lemma AddressedSnoc(xs: seq<Value>, x: Value)
    ensures Addressed(xs + [x]) == Addressed(xs) + (if HasEmail(x) then [x] else [])
  {
    assert (xs + [x])[..|xs|] == xs;
  }

  /** An entry is selected exactly when it is in the list and has an address. */
  lemma {:induction false} AddressedMembers(xs: seq<Value>, x: Value)
    ensures x in Addressed(xs) <==> x in xs && HasEmail(x)
    decreases |xs|
  {
    if xs != [] {
      AddressedMembers(xs[..|xs| - 1], x);
      assert xs == xs[..|xs| - 1] + [xs[|xs| - 1]];
    }
  }

  /** The message sent to one recipient: the job's sender and subject, the
      recipient's address, and the job's HTML personalised from the
      recipient's record inside the envelope. */
  function MailFor(job: Job, x: Value): (m: Mail)
    requires x.Obj?
    ensures m.from == job.from && m.subject == job.subject
    ensures m.to == Get(x.fields, "email")
  {
    Mail(job.from, Get(x.fields, "email"), job.subject,
         job.envelope.head + Personalise(job.html, x.fields) + job.envelope.tail)
  }

  /** The event reported for one message. */
  function EventFor(m: Mail, d: Delivery, stamp: string): (e: Event)
    ensures d.Delivered? ==> e == Sent(m.to, stamp)
    ensures d.Rejected? ==> e == Failed(m.to, d.message, stamp)
  {
    match d
    case Delivered => Sent(m.to, stamp)
    case Rejected(msg) => Failed(m.to, msg, stamp)
  }

  /** `mails[j]` is the message for the j-th selected recipient. */
  predicate Planned(job: Job, selected: seq<Value>, mails: seq<Mail>) {
    && |mails| == |selected|
    && forall j :: 0 <= j < |mails| ==> selected[j].Obj? && mails[j] == MailFor(job, selected[j])
  }

  /** `events[j]` reports the outcome of the j-th delivery attempt. */
  predicate Reported(mails: seq<Mail>, events: seq<Event>, transport: (nat, Mail) -> Delivery, clock: nat -> string) {
    && |events| == |mails|
    && forall j :: 0 <= j < |mails| ==> events[j] == EventFor(mails[j], transport(j, mails[j]), clock(j))
  }

  lemma PlannedSnoc(job: Job, selected: seq<Value>, mails: seq<Mail>, x: Value)
    requires Planned(job, selected, mails) && x.Obj?
    ensures Planned(job, selected + [x], mails + [MailFor(job, x)])
  {
    var s', m' := selected + [x], mails + [MailFor(job, x)];
    forall j | 0 <= j < |m'|
      ensures s'[j].Obj? && m'[j] == MailFor(job, s'[j])
    {
      if j < |mails| {
        assert s'[j] == selected[j] && m'[j] == mails[j];
      }
    }
  }

  lemma ReportedSnoc(mails: seq<Mail>, events: seq<Event>, m: Mail, transport: (nat, Mail) -> Delivery, clock: nat -> string)
    requires Reported(mails, events, transport, clock)
    ensures Reported(mails + [m], events + [EventFor(m, transport(|mails|, m), clock(|mails|))], transport, clock)
  {
  }

  /** One pass of the loop body for a recipient with an address: the message
      is built, handed to the transport, and its outcome reported. */
  method Deliver(job: Job, x: Value, mails: seq<Mail>, events: seq<Event>,
                 transport: (nat, Mail) -> Delivery, clock: nat -> string, ghost selected: seq<Value>)
    returns (mails': seq<Mail>, events': seq<Event>)
    requires x.Obj? && Planned(job, selected, mails) && Reported(mails, events, transport, clock)
    ensures Planned(job, selected + [x], mails') && Reported(mails', events', transport, clock)
  {
    var m := MailFor(job, x);
    var outcome := transport(|mails|, m);
    PlannedSnoc(job, selected, mails, x);
    ReportedSnoc(mails, events, m, transport, clock);
    events' := events + [EventFor(m, outcome, clock(|mails|))];
    mails' := mails + [m];
  }

  /** One entry the loop reaches: delivered to when it has an address,
      skipped otherwise. */
  method Visit(job: Job, x: Value, mails: seq<Mail>, events: seq<Event>,
               transport: (nat, Mail) -> Delivery, clock: nat -> string, ghost selected: seq<Value>)
    returns (mails': seq<Mail>, events': seq<Event>)
    requires Planned(job, selected, mails) && Reported(mails, events, transport, clock)
    ensures Planned(job, selected + (if HasEmail(x) then [x] else []), mails')
    ensures Reported(mails', events', transport, clock)
  {
    if HasEmail(x) {
      mails', events' := Deliver(job, x, mails, events, transport, clock, selected);
    } else {
      assert selected + [] == selected;
      mails', events' := mails, events;
    }
  }

  /** The loop itself: it stops at the end of the list or at the first
      `null` or `undefined` entry, whose `.email` throws. */
  method Walk(job: Job, list: seq<Value>, transport: (nat, Mail) -> Delivery, clock: nat -> string)
    returns (mails: seq<Mail>, events: seq<Event>, n: nat)
    ensures n <= |list| && forall k :: 0 <= k < n ==> !Nullish(list[k])
    ensures n == |list| || Nullish(list[n])
    ensures Planned(job, Addressed(list[..n]), mails)
    ensures Reported(mails, events, transport, clock)
  {
    mails, events := [], [];
    n := 0;
    ghost var selected: seq<Value> := [];
    while n < |list| && !Nullish(list[n])
      invariant 0 <= n <= |list|
      invariant forall k :: 0 <= k < n ==> !Nullish(list[k])
      invariant selected == Addressed(list[..n])
      invariant Planned(job, selected, mails)
      invariant Reported(mails, events, transport, clock)
    {
      var x := list[n];
      assert list[..n + 1] == list[..n] + [x];
      AddressedSnoc(list[..n], x);
      mails, events := Visit(job, x, mails, events, transport, clock, selected);
      selected := selected + (if HasEmail(x) then [x] else []);
      n := n + 1;
    }
  }

  /** Runs the loop. `transport(j, m)` is the outcome of the j-th delivery
      attempt and `clock(j)` the timestamp taken for the j-th event. The
      stream is closed with the completion marker only when no entry threw. */
  method Stream(job: Job, list: seq<Value>, transport: (nat, Mail) -> Delivery, clock: nat -> string)
    returns (mails: seq<Mail>, events: seq<Event>, closed: bool)
    ensures closed <==> forall i :: 0 <= i < |list| ==> !Nullish(list[i])
    ensures Planned(job, Addressed(Reached(list)), mails)
    ensures |events| == |mails| + (if closed then 1 else 0)
    ensures Reported(mails, events[..|mails|], transport, clock)
    ensures closed ==> events[|mails|] == Done
  {
    var n;
    mails, events, n := Walk(job, list, transport, clock);
    ReachedEnd(list, n);
    closed := n == |list|;
    assert events[..|mails|] == events;
    if closed {
      var reported := events;
      events := events + [Done];
      assert events[..|mails|] == reported;
    }
  }

  /** The entries reached are those before the first `null` or `undefined`. */
  lemma {:induction false} ReachedEnd(list: seq<Value>, i: nat)
    requires i <= |list| && forall k :: 0 <= k < i ==> !Nullish(list[k])
    requires i == |list| || Nullish(list[i])
    ensures Reached(list) == list[..i]
    decreases i
  {
    if i > 0 {
      ReachedEnd(list[1..], i - 1);
      assert list[1..][..i - 1] == list[1..i];
      assert list[..i] == [list[0]] + list[1..i];
    }
  }
}
