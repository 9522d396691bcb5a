/** The Notion recipient route (app/api/notion/recipients/route.ts, `POST`):
    the pages of the recipient database whose role property contains one of
    the requested roles, each turned into a flat record for personalisation. */
module NotionRecipients {
  import opened Js
  import opened Notion

  /** One clause of the query filter. */
  datatype Clause = Clause(property: string, contains: Value)

  /** The query filter: an `or` of clauses. */
  datatype Filter = Or(clauses: seq<Clause>)

  /** What the route answers. */
  datatype Response =
    | Recipients(records: seq<Record>)
    | Failure(status: nat, error: string)

  /** The property holds no value: an empty email, phone, number, URL,
      select, date or formula result, or a type the route does not read. */
  predicate Blank(p: Prop) {
    match p
    case Email(e) => e.None?
    case PhoneNumber(e) => e.None?
    case Number(n) => n.None?
    case Url(u) => u.None?
    case Select(o) => o.None?
    case Date(d) => d.None?
    case Formula(f) => (f.FormulaString? && f.str.None?) || (f.FormulaNumber? && f.num.None?) || f.FormulaOther?
    case OtherProp(_) => true
    case _ => false
  }

  /** `extractValue`: the scalar a property contributes to the record.
      A blank property gives `null`, except a missing select or date, whose
      optional chaining gives `undefined`. */
  function ExtractValue(p: Prop): (v: Value)
    ensures Nullish(v) <==> Blank(p)
    ensures p.Title? ==> v == Str(Concat(p.title))
    ensures p.RichText? ==> v == Str(Concat(p.texts))
    ensures p.MultiSelect? ==> v == Str(Join(p.names, ", "))
    ensures p.Checkbox? ==> v == Bool(p.checked)
    ensures p.Email? && p.email.Some? ==> v == Str(p.email.value)
    ensures p.PhoneNumber? && p.phone.Some? ==> v == Str(p.phone.value)
    ensures p.Url? && p.url.Some? ==> v == Str(p.url.value)
    ensures p.Number? && p.number.Some? ==> v == Num(p.number.value)
    ensures p.Select? && p.option.Some? ==> v == Str(p.option.value)
    ensures p.Date? && p.start.Some? ==> v == Str(p.start.value)
    ensures p.Formula? && p.formula.FormulaString? && p.formula.str.Some? ==> v == Str(p.formula.str.value)
    ensures p.Formula? && p.formula.FormulaNumber? && p.formula.num.Some? ==> v == Num(p.formula.num.value)
    ensures Blank(p) && (p.Select? || p.Date?) ==> v == Undefined
    ensures Blank(p) && !(p.Select? || p.Date?) ==> v == Null
  {
    match p
    case Title(ts) => Str(Concat(ts))
    case RichText(ts) => Str(Concat(ts))
    case Email(e) => if e.Some? then Str(e.value) else Null
    case PhoneNumber(e) => if e.Some? then Str(e.value) else Null
    case Number(n) => if n.Some? then Num(n.value) else Null
    case Url(u) => if u.Some? then Str(u.value) else Null
    case Select(o) => if o.Some? then Str(o.value) else Undefined
    case MultiSelect(ns) => Str(Join(ns, ", "))
    case Date(d) => if d.Some? then Str(d.value) else Undefined
    case Checkbox(b) => Bool(b)
    case Formula(FormulaString(s)) => if s.Some? then Str(s.value) else Null
    case Formula(FormulaNumber(n)) => if n.Some? then Num(n.value) else Null
    case Formula(FormulaOther(_)) => Null
    case OtherProp(_) => Null
  }

  /** One iteration of the property loop: a non-nullish value is stored
      under the lower-cased key, and a title's value also under `name`. */
  function Put(rec: Record, key: string, p: Prop): (r: Record)
    ensures Nullish(ExtractValue(p)) ==> r == rec
    ensures !Nullish(ExtractValue(p)) ==> Get(r, Lower(key)) == ExtractValue(p)
    ensures !Nullish(ExtractValue(p)) && p.Title? ==> Get(r, "name") == ExtractValue(p)
    ensures forall k :: k != Lower(key) && (k != "name" || !p.Title?) ==> Get(r, k) == Get(rec, k)
    ensures UniqueKeys(rec) ==> UniqueKeys(r)
  {
    var v := ExtractValue(p);
    if Nullish(v) then rec
    else
      var r := Set(rec, Lower(key), v);
      if p.Title? then Set(r, "name", v) else r
  }

  /** The property loop, continuing from `rec`. */
  function BuildFrom(rec: Record, props: Props): (r: Record)
    ensures UniqueKeys(rec) ==> UniqueKeys(r)
    ensures LowerKeys(rec) ==> LowerKeys(r)
    decreases |props|
  {
    if props == [] then rec
    else
      PutLowerKeys(rec, props[0].0, props[0].1);
      BuildFrom(Put(rec, props[0].0, props[0].1), props[1..])
  }

  /** Every key of the record is in lower case, so `{{Email}}` and
      `{{email}}` find the same entry. */
  predicate LowerKeys(rec: Record) {
    forall i :: 0 <= i < |Keys(rec)| ==> Lower(Keys(rec)[i]) == Keys(rec)[i]
  }

  /** Storing under a lower-cased key, and then under `name`, keeps the keys
      lower case. */
  lemma SetBothLower(rec: Record, key: string, v: Value)
    requires LowerKeys(rec)
    ensures LowerKeys(Set(rec, Lower(key), v))
    ensures LowerKeys(Set(Set(rec, Lower(key), v), "name", v))
  {
    LowerIdempotent(key);
    SetLowerKeys(rec, Lower(key), v);
    assert Lower("name") == "name";
    SetLowerKeys(Set(rec, Lower(key), v), "name", v);
  }

  lemma PutLowerKeys(rec: Record, key: string, p: Prop)
    ensures LowerKeys(rec) ==> LowerKeys(Put(rec, key, p))
  {
    if LowerKeys(rec) {
      SetBothLower(rec, key, ExtractValue(p));
    }
  }

  lemma SetLowerKeys(rec: Record, key: string, v: Value)
    requires LowerKeys(rec) && Lower(key) == key
    ensures LowerKeys(Set(rec, key, v))
  {
    var ks := Keys(Set(rec, key, v));
    assert ks == Keys(rec) || ks == Keys(rec) + [key];
    forall i | 0 <= i < |ks|
      ensures Lower(ks[i]) == ks[i]
    {
      if i < |Keys(rec)| {
        assert ks[i] == Keys(rec)[i];
      }
    }
  }

  /** The record built from a page's properties. */
  function BuildRecord(props: Props): (r: Record)
    ensures UniqueKeys(r) && LowerKeys(r)
  {
    BuildFrom([], props)
  }

  /** Reference reading of the record: the value under `key` is the one the
      LAST property contributes to it, or nothing. A property contributes to
      its lower-cased key, and a title also to `name`. */
  function Contribution(props: Props, key: string): (v: Option<Value>)
    ensures v.Some? ==> !Nullish(v.value)
    decreases |props|
  {
    if props == [] then None
    else
      var last := props[|props| - 1];
      var x := ExtractValue(last.1);
      if !Nullish(x) && (Lower(last.0) == key || (last.1.Title? && key == "name")) then Some(x)
      else Contribution(props[..|props| - 1], key)
  }

  /** Each property overwrites what earlier ones stored under the same key. */
  lemma {:induction false} BuildFromGet(rec: Record, props: Props, key: string)
    ensures Get(BuildFrom(rec, props), key) ==
      (if Contribution(props, key).Some? then Contribution(props, key).value else Get(rec, key))
    decreases |props|
  {
    if props != [] {
      var rec' := Put(rec, props[0].0, props[0].1);
      BuildFromGet(rec', props[1..], key);
      ContributionCons(props, key);
    }
  }

  /** `Contribution` read from the front: the tail's contribution wins, else
      the head's. */
  lemma {:induction false} ContributionCons(props: Props, key: string)
    requires props != []
    ensures Contribution(props, key) ==
      (if Contribution(props[1..], key).Some? then Contribution(props[1..], key)
       else var x := ExtractValue(props[0].1);
         if !Nullish(x) && (Lower(props[0].0) == key || (props[0].1.Title? && key == "name")) then Some(x) else None)
    decreases |props|
  {
    if |props| > 1 {
      var init := props[..|props| - 1];
      assert init[1..] == props[1..][..|props[1..]| - 1];
      assert init[0] == props[0];
      ContributionCons(init, key);
    } else {
      assert props[..|props| - 1] == [];
      assert props[1..] == [];
    }
  }

  /** The record holds, under every key, what the last contributing property
      gave, and nothing under keys no property contributes to. */
  lemma BuildRecordGet(props: Props, key: string)
    ensures Get(BuildRecord(props), key) ==
      (if Contribution(props, key).Some? then Contribution(props, key).value else Undefined)
  {
    BuildFromGet([], props, key);
  }

  /** With `email` falsy and `mail` truthy, the address is copied from `mail`. */
  function Alias(rec: Record): (r: Record)
    ensures !Truthy(Get(rec, "email")) && Truthy(Get(rec, "mail")) ==> Get(r, "email") == Get(rec, "mail")
    ensures Truthy(Get(rec, "email")) || !Truthy(Get(rec, "mail")) ==> r == rec
    ensures forall k :: k != "email" ==> Get(r, k) == Get(rec, k)
  {
    if !Truthy(Get(rec, "email")) && Truthy(Get(rec, "mail")) then Set(rec, "email", Get(rec, "mail")) else rec
  }

  /** The record for one query result, or nothing for a partial page or a
      record without an address. */
  function RecordFor(page: Page): (r: Option<Record>)
    ensures page.properties.None? ==> r.None?
    ensures r.Some? ==> Truthy(Get(r.value, "email"))
    ensures page.properties.Some? ==>
      (r.Some? <==> Truthy(Get(BuildRecord(page.properties.value), "email")) || Truthy(Get(BuildRecord(page.properties.value), "mail")))
  {
    if page.properties.None? then None
    else
      var rec := Alias(BuildRecord(page.properties.value));
      if Truthy(Get(rec, "email")) then Some(rec) else None
  }

  /** The records one page contributes: none or one. */
  function Kept(page: Page): (rs: seq<Record>)
    ensures |rs| <= 1
    ensures forall r :: r in rs <==> RecordFor(page) == Some(r)
  {
    var r := RecordFor(page);
    if r.Some? then [r.value] else []
  }

  /** The records of a query result, in page order. */
  function Records(pages: seq<Page>): (rs: seq<Record>)
    ensures |rs| <= |pages|
    ensures forall i :: 0 <= i < |rs| ==> Truthy(Get(rs[i], "email"))
    decreases |pages|
  {
    if pages == [] then []
    else
      Kept(pages[0]) + Records(pages[1..])
  }

  /** Splitting a result into two pages of results does not change the
      outcome: records come out in page order. */
  lemma {:induction false} RecordsAppend(p1: seq<Page>, p2: seq<Page>)
    ensures Records(p1 + p2) == Records(p1) + Records(p2)
    decreases |p1|
  {
    if p1 != [] {
      var ps := p1 + p2;
      assert ps[0] == p1[0] && ps[1..] == p1[1..] + p2;
      RecordsAppend(p1[1..], p2);
      var k, r1, r2 := Kept(p1[0]), Records(p1[1..]), Records(p2);
      assert Records(ps) == k + (r1 + r2);
      assert Records(p1) == k + r1;
      assert k + (r1 + r2) == (k + r1) + r2;
    } else {
      assert p1 + p2 == p2;
    }
  }

  /** A record is kept exactly when its page yields one. */
  lemma {:induction false} RecordsMembers(pages: seq<Page>, r: Record)
    ensures r in Records(pages) <==> exists i :: 0 <= i < |pages| && RecordFor(pages[i]) == Some(r)
    decreases |pages|
  {
    if pages != [] {
      var head, tail := pages[0], pages[1..];
      assert Records(pages) == Kept(head) + Records(tail);
      assert r in Kept(head) <==> RecordFor(head) == Some(r);
      RecordsMembers(tail, r);
      if r in Records(tail) {
        var i :| 0 <= i < |tail| && RecordFor(tail[i]) == Some(r);
        assert pages[i + 1] == tail[i];
      }
      if i :| 0 <= i < |pages| && RecordFor(pages[i]) == Some(r) {
        if i > 0 {
          assert tail[i - 1] == pages[i];
        }
      }
    }
  }

  /** The `or` filter: one `contains` clause on the role property per
      requested role, in request order. */
  function RoleFilter(property: string, roles: seq<Value>): (f: Filter)
    ensures |f.clauses| == |roles|
    ensures forall i :: 0 <= i < |roles| ==> f.clauses[i] == Clause(property, roles[i])
  {
    Or(seq(|roles|, i requires 0 <= i < |roles| => Clause(property, roles[i])))
  }

  /** `roles` is a non-empty array. */
  predicate RolesGiven(roles: Value) {
    roles.Arr? && roles.items != []
  }

  /** Every step before the query succeeded: roles were given, the database
      was retrieved with its properties, and one of them is the role
      property. */
  predicate Located(env: Env, roles: Try<Value>, retrieve: Try<Option<Schemas>>) {
    && RecipientDatabaseConfigured(env) && roles.Ok? && RolesGiven(roles.value)
    && retrieve.Ok? && retrieve.value.Some? && RolePropertyName(retrieve.value.value).Some?
  }

  /** Handles one request. `roles` is the `roles` field of the parsed body
      or the error reading the body threw; `retrieve` is the database
      retrieval (its `properties`, possibly missing, or the error it threw);
      `query` runs a filter against the database. */
  function Post(env: Env, roles: Try<Value>, retrieve: Try<Option<Schemas>>, query: Filter -> Try<seq<Page>>): (resp: Response)
    ensures !RecipientDatabaseConfigured(env) ==> resp == Failure(500, "Notion configuration missing")
    ensures RecipientDatabaseConfigured(env) && roles.Throw? ==> resp == Failure(500, roles.message)
    ensures RecipientDatabaseConfigured(env) && roles.Ok? && !RolesGiven(roles.value) ==> resp == Recipients([])
    ensures RecipientDatabaseConfigured(env) && roles.Ok? && RolesGiven(roles.value) && retrieve.Throw? ==>
      resp == Failure(500, retrieve.message)
    ensures RecipientDatabaseConfigured(env) && roles.Ok? && RolesGiven(roles.value) && retrieve == Ok(None) ==>
      resp == Failure(500, "Cannot read properties of undefined (reading 'role')")
    ensures resp.Failure? && resp.status == 404 ==> resp.error == "Property \"role\" (or Role, Roles) not found in database"
    ensures resp.Failure? && resp.status == 404 <==>
      RecipientDatabaseConfigured(env) && roles.Ok? && RolesGiven(roles.value) && retrieve.Ok? && retrieve.value.Some? &&
      RolePropertyName(retrieve.value.value).None?
    ensures Located(env, roles, retrieve) ==>
      var f := RoleFilter(RolePropertyName(retrieve.value.value).value, roles.value.items);
      && (query(f).Ok? ==> resp == Recipients(Records(query(f).value)))
      && (query(f).Throw? ==> resp == Failure(500, query(f).message))
    ensures resp.Recipients? && resp.records != [] ==> Located(env, roles, retrieve)
  {
    if !RecipientDatabaseConfigured(env) then Failure(500, "Notion configuration missing")
    else if roles.Throw? then Failure(500, roles.message)
    else if !RolesGiven(roles.value) then Recipients([])
    else if retrieve.Throw? then Failure(500, retrieve.message)
    else if retrieve.value.None? then Failure(500, "Cannot read properties of undefined (reading 'role')")
    else
      var name := RolePropertyName(retrieve.value.value);
      if name.None? then Failure(404, "Property \"role\" (or Role, Roles) not found in database")
      else
        var result := query(RoleFilter(name.value, roles.value.items));
        if result.Throw? then Failure(500, result.message)
        else Recipients(Records(result.value))
  }
}
