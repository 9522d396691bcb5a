/** The role-options route (app/api/notion/roles/route.ts, `GET`): the
    options of the recipient database's role property, offered to the user
    to choose recipients by role. */
module NotionRoles {
  import opened Js
  import opened Notion

  datatype Response =
    | Options(options: seq<RoleOption>)
    | Failure(status: nat, error: string)

  /** Appended to the 404 message when the database looks like the
      template database. */
  const TemplateHint := " (It looks like you might be using the Template Database ID instead of the Recipient Database ID)"

  /** The hint for the comma-joined property names. */
  function Hint(available: string): (h: string)
    ensures h == TemplateHint <==> Contains(available, "Type") && Contains(available, "Subject")
    ensures h == "" <==> !(Contains(available, "Type") && Contains(available, "Subject"))
  {
    if Contains(available, "Type") && Contains(available, "Subject") then TemplateHint else ""
  }

  /** The 404 message, listing the database's property names. */
  function NotFound(props: Schemas): (r: string)
    ensures NotFoundLead <= r
  {
    var available := Join(Names(props), ", ");
    NotFoundLead + available + "." + Hint(available)
  }

  /** How the 404 message begins. */
  const NotFoundLead := "Property \"role\" not found in database. Available properties: "

  /** The 404 message names every property of the database. */
  lemma NotFoundListsProperties(props: Schemas, i: nat)
    requires i < |props|
    ensures Contains(NotFound(props), props[i].0)
  {
    var ns := Names(props);
    var available := Join(ns, ", ");
    JoinContainsParts(ns, ", ", i);
    ContainsWithin(NotFoundLead, available, "." + Hint(available), ns[i]);
    assert NotFound(props) == NotFoundLead + available + ("." + Hint(available));
  }

  /** A database with properties named `Type` and `Subject` gets the hint. */
  lemma TemplateDatabaseHinted(props: Schemas)
    requires "Type" in Names(props) && "Subject" in Names(props)
    ensures Hint(Join(Names(props), ", ")) == TemplateHint
  {
    var ns := Names(props);
    var i :| 0 <= i < |ns| && ns[i] == "Type";
    var j :| 0 <= j < |ns| && ns[j] == "Subject";
    JoinContainsParts(ns, ", ", i);
    JoinContainsParts(ns, ", ", j);
  }

  /** The 400 message for a role property of another type. */
  const WrongType := "Property \"role\" must be a Select or Multi-select type"

  /** `GET`: `retrieve` is the database as retrieved (its `properties`,
      possibly missing) or the error the request threw. */
  function Get(env: Env, retrieve: Try<Option<Schemas>>): (resp: Response)
    ensures !RecipientDatabaseConfigured(env) ==> resp == Failure(500, "Notion configuration missing")
    ensures RecipientDatabaseConfigured(env) && retrieve.Throw? ==> resp == Failure(500, retrieve.message)
    ensures RecipientDatabaseConfigured(env) && retrieve == Ok(None) ==>
      resp == Failure(500, "Invalid Notion response: missing properties")
    ensures RecipientDatabaseConfigured(env) && retrieve.Ok? && retrieve.value.Some? ==>
      var props := retrieve.value.value;
      && (RolePropertyName(props).None? ==> resp == Failure(404, NotFound(props)))
      && (RolePropertyName(props).Some? ==>
            var schema := Lookup(props, RolePropertyName(props).value).value;
            && (schema.OtherSchema? ==> resp == Failure(400, WrongType))
            && (!schema.OtherSchema? ==> resp == Options(schema.options)))
    ensures resp.Options? <==>
      && RecipientDatabaseConfigured(env) && retrieve.Ok? && retrieve.value.Some?
      && RoleProperty(retrieve.value.value).Some? && !RoleProperty(retrieve.value.value).value.OtherSchema?
  {
    if !RecipientDatabaseConfigured(env) then Failure(500, "Notion configuration missing")
    else if retrieve.Throw? then Failure(500, retrieve.message)
    else if retrieve.value.None? then Failure(500, "Invalid Notion response: missing properties")
    else
      var props := retrieve.value.value;
      var role := RoleProperty(props);
      RoleRoutesAgree(props);
      if role.None? then Failure(404, NotFound(props))
      else if role.value.OtherSchema? then Failure(400, WrongType)
      else Options(role.value.options)
  }
}
