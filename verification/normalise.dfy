/** The recipient normalisation of the bulk-send route
    (app/api/send/route.ts, before the stream is opened): only the first
    element of an array decides its shape. */
module Normalise {
  import opened Js

  /** An address and a name read from one entry of a list of strings. */
  datatype Line = Line(email: string, name: string) {
    /** The record `{ email, name }` the entry becomes. */
    function ToRecord(): (rec: Record)
      ensures Keys(rec) == ["email", "name"]
      ensures Get(rec, "email") == Str(email) && Get(rec, "name") == Str(name)
    {
      [("email", Str(email)), ("name", Str(name))]
    }
  }

  /** One entry of a list of strings: the trimmed entry is the address, or,
      when it contains a comma, the trimmed first piece is the address and the
      trimmed second piece the name; a name is never absent, only empty. */
  function ParseLine(entry: string): (l: Line)
    ensures ',' !in l.email && ',' !in l.name
    ensures Trim(l.email) == l.email && Trim(l.name) == l.name
    ensures ',' !in Trim(entry) ==> l == Line(Trim(entry), "")
  {
    var e := Trim(entry);
    if ',' in e then
      var parts := Split(e, ',');
      TrimIdempotent(parts[0]);
      TrimIdempotent(parts[1]);
      TrimKeepsOut(parts[0], ',');
      TrimKeepsOut(parts[1], ',');
      Line(Trim(parts[0]), Trim(parts[1]))
    else
      TrimIdempotent(entry);
      Line(e, "")
  }

  /** Trimming never introduces a character. */
  lemma TrimKeepsOut(s: string, c: char)
    requires c !in s
    ensures c !in Trim(s)
  {
    var i := TrimIsSlice(s);
    forall k | 0 <= k < |Trim(s)|
      ensures Trim(s)[k] != c
    {
      assert Trim(s)[k] == s[i + k];
    }
  }

  /** The error `entry.trim()` throws for a non-string entry. */
  function TrimError(v: Value): string {
    match v
    case Undefined => "Cannot read properties of undefined (reading 'trim')"
    case Null => "Cannot read properties of null (reading 'trim')"
    case _ => "r.trim is not a function"
  }

  /** The number of leading string entries of `xs`. */
  function StringPrefix(xs: seq<Value>): (n: nat)
    ensures n <= |xs|
    ensures forall j :: 0 <= j < n ==> xs[j].Str?
    ensures n < |xs| ==> !xs[n].Str?
    decreases |xs|
  {
    if xs == [] || !xs[0].Str? then 0 else 1 + StringPrefix(xs[1..])
  }

  /** `recipients.map(...)` over an array whose first element is a string:
      every entry becomes a record, or the first non-string entry throws. */
  function ParseLines(xs: seq<Value>): (r: Try<seq<Value>>)
    ensures r.Ok? <==> forall i :: 0 <= i < |xs| ==> xs[i].Str?
    ensures r.Ok? ==> |r.value| == |xs| && forall i :: 0 <= i < |xs| ==> r.value[i] == Obj(ParseLine(xs[i].s).ToRecord())
    ensures r.Throw? ==> StringPrefix(xs) < |xs| && r.message == TrimError(xs[StringPrefix(xs)])
  {
    var n := StringPrefix(xs);
    if n < |xs| then Throw(TrimError(xs[n]))
    else Ok(seq(|xs|, i requires 0 <= i < |xs| => Obj(ParseLine(xs[i].s).ToRecord())))
  }

  /** The list of recipient values the send loop iterates. */
  function NormaliseRecipients(recipients: Value): (r: Try<seq<Value>>)
    ensures recipients.Arr? && |recipients.items| > 0 && recipients.items[0].Str? ==>
      (r.Ok? <==> forall i :: 0 <= i < |recipients.items| ==> recipients.items[i].Str?)
    ensures recipients.Arr? && |recipients.items| > 0 && recipients.items[0].Str? && r.Ok? ==>
      |r.value| == |recipients.items| &&
      forall i :: 0 <= i < |r.value| ==> r.value[i] == Obj(ParseLine(recipients.items[i].s).ToRecord())
    ensures recipients.Arr? && (|recipients.items| == 0 || !recipients.items[0].Str?) ==> r == Ok(recipients.items)
    ensures recipients.Str? ==> r == Ok([Obj([("email", Str(Trim(recipients.s)))])])
    ensures !recipients.Arr? && !recipients.Str? ==> r == Ok([])
  {
    match recipients
    case Arr(xs) => if |xs| > 0 && xs[0].Str? then ParseLines(xs) else Ok(xs)
    case Str(s) => Ok([Obj([("email", Str(Trim(s)))])])
    case _ => Ok([])
  }

  /** The line format `address, name` is read back: an address and a name,
      both without commas and surrounding white space, come back as they were. */
  lemma LineRoundTrip(email: string, name: string)
    requires ',' !in email && ',' !in name
    requires Trim(email) == email && Trim(name) == name
    ensures ParseLine(email + ", " + name) == Line(email, name)
  {
    SpaceAfterComma(email, name);
    LineParts(email, " " + name);
    TrimLeadingSpace(name);
  }

  /** `IndexOf` is the first position holding `c`. */
  lemma IndexOfFirst(s: string, c: char, k: nat)
    requires k < |s| && s[k] == c && c !in s[..k]
    ensures IndexOf(s, c) == k
  {
  }

  /** A space in front does not change the trim. */
  lemma TrimLeadingSpace(name: string)
    ensures Trim(" " + name) == Trim(name)
  {
    var s := " " + name;
    assert s[1..] == name;
    assert TrimStart(s) == TrimStart(name);
    TrimOfTrimStart(s);
    TrimOfTrimStart(name);
  }

  /** An entry with one comma gives the trimmed text before it as the
      address and the trimmed text after it as the name. */
  lemma LineParts(email: string, name: string)
    requires ',' !in email && ',' !in name
    ensures ParseLine(email + "," + name) == Line(Trim(email), Trim(name))
  {
    ParseAfterComma(email, name);
    assert ',' !in TrimEnd(name) by { assert TrimEnd(name) <= name; }
    TrimOfTrimEnd(name);
  }

  /** Only the first two comma-separated pieces matter: everything after a
      second comma is discarded. */
  lemma ExtraPiecesDropped(email: string, name: string, rest: string)
    requires ',' !in email && ',' !in name
    ensures ParseLine(email + "," + name + "," + rest) == Line(Trim(email), Trim(name))
  {
    var after := name + "," + rest;
    assert email + "," + name + "," + rest == email + "," + after;
    ParseAfterComma(email, after);
    FirstPiece(name, rest);
  }

  /** Trimming the end of `name,rest` leaves `name` as its first piece. */
  lemma FirstPiece(name: string, rest: string)
    requires ',' !in name
    ensures Split(TrimEnd(name + "," + rest), ',')[0] == name
  {
    TrimEndConcat(name + ",", rest);
    SplitFirst(name, TrimEnd(rest));
  }

  /** Whatever follows the first comma, the address is the trimmed text
      before it and the name is the trimmed first piece after it. */
  lemma ParseAfterComma(email: string, tail: string)
    requires ',' !in email
    ensures ParseLine(email + "," + tail) == Line(Trim(email), Trim(Split(TrimEnd(tail), ',')[0]))
  {
    CommaPieces(email, tail);
    TrimOfTrimStart(email);
    ParseComma(email + "," + tail);
  }

  /** The pieces of a trimmed entry with a comma: the start-trimmed text
      before the first comma, then the pieces of the end-trimmed rest. */
  lemma CommaPieces(email: string, tail: string)
    requires ',' !in email
    ensures Split(Trim(email + "," + tail), ',') == [TrimStart(email)] + Split(TrimEnd(tail), ',')
  {
    TrimAround(email, ',', tail);
    TrimStartKeepsOut(email, ',');
    SplitFirst(TrimStart(email), TrimEnd(tail));
  }

  /** Trimming the start never introduces a character. */
  lemma TrimStartKeepsOut(s: string, c: char)
    requires c !in s
    ensures c !in TrimStart(s)
  {
    assert TrimStart(s) == s[|s| - |TrimStart(s)|..];
  }

  lemma SpaceAfterComma(email: string, name: string)
    ensures email + ", " + name == email + "," + (" " + name)
  {
  }

  /** With a comma in the trimmed entry, the address and name are the
      trimmed first and second pieces. */
  lemma ParseComma(entry: string)
    requires ',' in Trim(entry)
    ensures ParseLine(entry) == Line(Trim(Split(Trim(entry), ',')[0]), Trim(Split(Trim(entry), ',')[1]))
  {
  }

  /** Splitting at a first comma: the piece before it, then the pieces of
      what follows it. */
  lemma SplitFirst(head: string, tail: string)
    requires ',' !in head
    ensures Split(head + "," + tail, ',') == [head] + Split(tail, ',')
  {
    var s := head + "," + tail;
    assert s[|head|] == ',' && s[..|head|] == head;
    IndexOfFirst(s, ',', |head|);
    assert s[|head| + 1..] == tail;
  }
}
