/** The parts of Notion's API responses that the routes read: typed page
    properties, database property schemas, and the role property both the
    recipient and the role routes look for. */
module Notion {
  import opened Js

  /** The value of a formula property. */
  datatype FormulaValue =
    | FormulaString(str: Option<string>)
    | FormulaNumber(num: Option<int>)
    | FormulaOther(kind: string)

  /** A page property, by its `type`. Rich-text values are listed by the
      `plain_text` of their fragments; a select, date, email and similar
      value that Notion reports as `null` is `None`. */
  datatype Prop =
    | Title(title: seq<string>)
    | RichText(texts: seq<string>)
    | Email(email: Option<string>)
    | PhoneNumber(phone: Option<string>)
    | Number(number: Option<int>)
    | Url(url: Option<string>)
    | Select(option: Option<string>)
    | MultiSelect(names: seq<string>)
    | Date(start: Option<string>)
    | Checkbox(checked: bool)
    | Formula(formula: FormulaValue)
    | OtherProp(kind: string)

  /** A page's properties, in the order `Object.entries` yields them. */
  type Props = seq<(string, Prop)>

  /** A query result entry: a full page has properties, a partial one has not. */
  datatype Page = Page(id: string, properties: Option<Props>)

  /** An option of a select or multi-select property. */
  datatype RoleOption = RoleOption(id: string, name: string, color: string)

  /** A database property schema, by its `type`. */
  datatype Schema =
    | SelectSchema(options: seq<RoleOption>)
    | MultiSelectSchema(options: seq<RoleOption>)
    | OtherSchema(kind: string)

  /** A database's property schemas, keyed by property name. */
  type Schemas = seq<(string, Schema)>

  /** NOTION_API_KEY and NOTION_DATABASE_ID are both set and non-empty, as
      the recipient and the role routes require. */
  predicate RecipientDatabaseConfigured(env: Env) {
    Truthy(EnvValue(env, "NOTION_API_KEY")) && Truthy(EnvValue(env, "NOTION_DATABASE_ID"))
  }

  /** `arr.map(t => t.plain_text).join('')` */
  function Concat(texts: seq<string>): (r: string)
    ensures |texts| == 1 ==> r == texts[0]
    decreases |texts|
  {
    if texts == [] then "" else texts[0] + Concat(texts[1..])
  }

  /** The names of the schemas, in order (`Object.keys(properties)`). */
  function Names(props: Schemas): (ns: seq<string>)
    ensures |ns| == |props|
    ensures forall i :: 0 <= i < |props| ==> ns[i] == props[i].0
    decreases |props|
  {
    if props == [] then [] else [props[0].0] + Names(props[1..])
  }

  /** `properties[name]`, present or not. */
  function Lookup(props: Schemas, name: string): (r: Option<Schema>)
    ensures r.None? <==> name !in Names(props)
    ensures r.Some? ==> exists i :: 0 <= i < |props| && props[i] == (name, r.value)
    decreases |props|
  {
    if props == [] then None
    else if props[0].0 == name then Some(props[0].1)
    else Lookup(props[1..], name)
  }

  /** The role property's name: `role`, else `Role`, else `Roles`. A
      property schema is an object and so always truthy, which makes the
      truthiness test the same as presence. */
  function RolePropertyName(props: Schemas): (r: Option<string>)
    ensures r.None? <==> "role" !in Names(props) && "Role" !in Names(props) && "Roles" !in Names(props)
    ensures r.Some? ==> r.value in Names(props)
    ensures r == Some("Role") ==> "role" !in Names(props)
    ensures r == Some("Roles") ==> "role" !in Names(props) && "Role" !in Names(props)
    ensures r.Some? ==> r.value == "role" || r.value == "Role" || r.value == "Roles"
  {
    if "role" in Names(props) then Some("role")
    else if "Role" in Names(props) then Some("Role")
    else if "Roles" in Names(props) then Some("Roles")
    else None
  }

  /** `properties['role'] || properties['Role'] || properties['Roles']` */
  function RoleProperty(props: Schemas): (r: Option<Schema>)
    ensures r.None? <==> RolePropertyName(props).None?
  {
    var a := Lookup(props, "role");
    if a.Some? then a
    else var b := Lookup(props, "Role");
    if b.Some? then b
    else Lookup(props, "Roles")
  }

  /** The role route's property is the one named by the recipient route's
      precedence rule: both routes pick the same property. */
  lemma RoleRoutesAgree(props: Schemas)
    ensures RolePropertyName(props).Some? ==> RoleProperty(props) == Lookup(props, RolePropertyName(props).value)
  {
  }
}
