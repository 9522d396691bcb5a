/** The Notion template route (app/api/notion/templates/route.ts): `GET`
    reads every page of the template database as a mail template, `POST`
    creates one. */
module NotionTemplates {
  import opened Js
  import opened Notion

  /** The four fields a page's properties are sorted into. */
  datatype Field = NameField | SubjectField | BodyField | TypeField

  /** The fields read so far, all strings, all empty to begin with. */
  datatype Fields = Fields(name: string, subject: string, body: string, kind: string) {
    function Read(f: Field): string {
      match f
      case NameField => name
      case SubjectField => subject
      case BodyField => body
      case TypeField => kind
    }

    /** The fields with `f` replaced. */
    function With(f: Field, s: string): (r: Fields)
      ensures r.Read(f) == s
      ensures forall g :: g != f ==> r.Read(g) == Read(g)
    {
      match f
      case NameField => this.(name := s)
      case SubjectField => this.(subject := s)
      case BodyField => this.(body := s)
      case TypeField => this.(kind := s)
    }
  }

  /** A template as the route returns it; `kind` is the JSON field `type`. */
  datatype Template = Template(id: string, filename: string, subject: string, body: string, kind: string, source: string)

  datatype Response =
    | Templates(templates: seq<Template>)
    | Saved
    | Failure(status: nat, error: string)

  /** The `else if` chain: a title property is the name whatever its key;
      otherwise the lower-cased key decides. */
  function FieldOf(key: string, p: Prop): (f: Option<Field>)
    ensures p.Title? ==> f == Some(NameField)
    ensures !p.Title? ==> (f == Some(SubjectField) <==> Lower(key) == "subject")
    ensures !p.Title? ==> (f == Some(BodyField) <==> Lower(key) == "body" || Lower(key) == "content")
    ensures !p.Title? ==> (f == Some(TypeField) <==> Lower(key) == "type")
    ensures f != Some(NameField) || p.Title?
  {
    var k := Lower(key);
    if p.Title? then Some(NameField)
    else if k == "subject" then Some(SubjectField)
    else if k == "body" || k == "content" then Some(BodyField)
    else if k == "type" then Some(TypeField)
    else None
  }

  /** `getName`, `getText` and `getSelect`: the text of a property of the
      expected type, or `''` for any other type. */
  function ReadAs(f: Field, p: Prop): (s: string)
    ensures f == NameField ==> s == (if p.Title? then Concat(p.title) else "")
    ensures (f == SubjectField || f == BodyField) ==> s == (if p.RichText? then Concat(p.texts) else "")
    ensures f == TypeField ==> s == (if p.Select? && p.option.Some? then p.option.value else "")
  {
    match f
    case NameField => if p.Title? then Concat(p.title) else ""
    case SubjectField => if p.RichText? then Concat(p.texts) else ""
    case BodyField => if p.RichText? then Concat(p.texts) else ""
    case TypeField => if p.Select? && p.option.Some? then p.option.value else ""
  }

  /** One iteration of the property loop. */
  function Step(acc: Fields, key: string, p: Prop): Fields {
    var f := FieldOf(key, p);
    if f.Some? then acc.With(f.value, ReadAs(f.value, p)) else acc
  }

  /** The property loop, continuing from `acc`. */
  function Classify(acc: Fields, props: Props): Fields
    decreases |props|
  {
    if props == [] then acc else Classify(Step(acc, props[0].0, props[0].1), props[1..])
  }

  /** Reference reading: the last property sorted into `f`. */
  function LastOf(props: Props, f: Field): (r: Option<(string, Prop)>)
    ensures r.Some? ==> r.value in props && FieldOf(r.value.0, r.value.1) == Some(f)
    decreases |props|
  {
    if props == [] then None
    else if FieldOf(props[|props| - 1].0, props[|props| - 1].1) == Some(f) then Some(props[|props| - 1])
    else LastOf(props[..|props| - 1], f)
  }

  /** `LastOf` read from the front. */
  lemma {:induction false} LastOfCons(props: Props, f: Field)
    requires props != []
    ensures LastOf(props, f) ==
      (if LastOf(props[1..], f).Some? then LastOf(props[1..], f)
       else if FieldOf(props[0].0, props[0].1) == Some(f) then Some(props[0]) else None)
    decreases |props|
  {
    if |props| > 1 {
      var init := props[..|props| - 1];
      assert init[1..] == props[1..][..|props[1..]| - 1];
      assert init[0] == props[0];
      LastOfCons(init, f);
    } else {
      assert props[..|props| - 1] == [];
      assert props[1..] == [];
    }
  }

  /** Later properties overwrite earlier ones: each field holds what the last
      property sorted into it gave, or what it held before. */
  lemma {:induction false} ClassifyField(acc: Fields, props: Props, f: Field)
    ensures Classify(acc, props).Read(f) ==
      (if LastOf(props, f).Some? then ReadAs(f, LastOf(props, f).value.1) else acc.Read(f))
    decreases |props|
  {
    if props != [] {
      ClassifyField(Step(acc, props[0].0, props[0].1), props[1..], f);
      LastOfCons(props, f);
    }
  }

  /** The template for one query result; a partial page has none. */
  function TemplateFor(page: Page): (t: Option<Template>)
    ensures t.Some? <==> page.properties.Some?
    ensures t.Some? ==> t.value.id == page.id && t.value.source == "notion"
  {
    if page.properties.None? then None
    else
      var fs := Classify(Fields("", "", "", ""), page.properties.value);
      Some(Template(page.id, fs.name, fs.subject, fs.body, fs.kind, "notion"))
  }

  /** The templates of a query result: partial pages and templates without
      a file name are dropped, the rest keep their order. */
  function Listed(pages: seq<Page>): (ts: seq<Template>)
    ensures |ts| <= |pages|
    ensures forall i :: 0 <= i < |ts| ==> ts[i].filename != "" && ts[i].source == "notion"
    decreases |pages|
  {
    if pages == [] then []
    else
      var t := TemplateFor(pages[0]);
      (if t.Some? && t.value.filename != "" then [t.value] else []) + Listed(pages[1..])
  }

  /** A template is listed exactly when some page yields it with a name. */
  lemma {:induction false} ListedMembers(pages: seq<Page>, t: Template)
    ensures t in Listed(pages) <==> t.filename != "" && exists i :: 0 <= i < |pages| && TemplateFor(pages[i]) == Some(t)
    decreases |pages|
  {
    if pages != [] {
      ListedMembers(pages[1..], t);
      var head := TemplateFor(pages[0]);
      assert Listed(pages) == (if head.Some? && head.value.filename != "" then [head.value] else []) + Listed(pages[1..]);
      if t in Listed(pages[1..]) {
        var i :| 0 <= i < |pages[1..]| && TemplateFor(pages[1..][i]) == Some(t);
        assert TemplateFor(pages[i + 1]) == Some(t);
      }
      if i :| 0 <= i < |pages| && TemplateFor(pages[i]) == Some(t) {
        if i > 0 {
          assert TemplateFor(pages[1..][i - 1]) == Some(t);
        }
      }
    }
  }

  /** The route needs both NOTION_API_KEY and NOTION_TEMPLATE_DATABASE_ID. */
  predicate Configured(env: Env) {
    Truthy(EnvValue(env, "NOTION_API_KEY")) && Truthy(EnvValue(env, "NOTION_TEMPLATE_DATABASE_ID"))
  }

  /** `GET`: `query` is the result of querying the template database, or
      the error it threw. An unconfigured route lists no templates. */
  function List(env: Env, query: Try<seq<Page>>): (resp: Response)
    ensures !Configured(env) ==> resp == Templates([])
    ensures Configured(env) && query.Throw? ==> resp == Failure(500, query.message)
    ensures Configured(env) && query.Ok? ==> resp == Templates(Listed(query.value))
    ensures !resp.Saved?
  {
    if !Configured(env) then Templates([])
    else if query.Throw? then Failure(500, query.message)
    else Templates(Listed(query.value))
  }

  /** The fields destructured from a `POST` body. */
  datatype Draft = Draft(name: Value, subject: Value, body: Value, kind: Value)

  /** The page `POST` asks Notion to create: the draft with the type
      defaulting to `General`. */
  datatype NewPage = NewPage(name: Value, subject: Value, body: Value, kind: Value)

  const DefaultType := "General"

  function PageFor(d: Draft): (np: NewPage)
    ensures np.name == d.name && np.subject == d.subject && np.body == d.body
    ensures Truthy(d.kind) ==> np.kind == d.kind
    ensures !Truthy(d.kind) ==> np.kind == Str(DefaultType)
  {
    NewPage(d.name, d.subject, d.body, Or(d.kind, Str(DefaultType)))
  }

  /** `POST`: `draft` is the parsed body or the error reading it threw;
      `create` is the page creation, which either succeeds or throws. */
  function Post(env: Env, draft: Try<Draft>, create: NewPage -> Try<()>): (resp: Response)
    ensures !Configured(env) ==> resp == Failure(500, "Notion Template DB not configured")
    ensures Configured(env) && draft.Throw? ==> resp == Failure(500, draft.message)
    ensures resp.Saved? <==> Configured(env) && draft.Ok? && create(PageFor(draft.value)).Ok?
    ensures Configured(env) && draft.Ok? && create(PageFor(draft.value)).Throw? ==>
      resp == Failure(500, create(PageFor(draft.value)).message)
    ensures !resp.Templates?
  {
    if !Configured(env) then Failure(500, "Notion Template DB not configured")
    else if draft.Throw? then Failure(500, draft.message)
    else
      var r := create(PageFor(draft.value));
      if r.Throw? then Failure(500, r.message) else Saved
  }

  /** The properties of the page Notion stores for a `POST` whose fields
      are all strings. */
  function Stored(np: NewPage): Props
    requires np.name.Str? && np.subject.Str? && np.body.Str? && np.kind.Str?
  {
    [("Name", Title([np.name.s])), ("Subject", RichText([np.subject.s])),
     ("Body", RichText([np.body.s])), ("Type", Select(Some(np.kind.s)))]
  }

  /** How the four stored properties are sorted. */
  lemma StoredFields(np: NewPage)
    requires np.name.Str? && np.subject.Str? && np.body.Str? && np.kind.Str?
    ensures FieldOf(Stored(np)[0].0, Stored(np)[0].1) == Some(NameField)
    ensures FieldOf(Stored(np)[1].0, Stored(np)[1].1) == Some(SubjectField)
    ensures FieldOf(Stored(np)[2].0, Stored(np)[2].1) == Some(BodyField)
    ensures FieldOf(Stored(np)[3].0, Stored(np)[3].1) == Some(TypeField)
  {
    assert Lower("Subject") == "subject";
    assert Lower("Body") == "body";
    assert Lower("Type") == "type";
  }

  /** Each stored property is the last, and only, one of its field. */
  lemma StoredLast(np: NewPage)
    requires np.name.Str? && np.subject.Str? && np.body.Str? && np.kind.Str?
    ensures LastOf(Stored(np), NameField) == Some(Stored(np)[0])
    ensures LastOf(Stored(np), SubjectField) == Some(Stored(np)[1])
    ensures LastOf(Stored(np), BodyField) == Some(Stored(np)[2])
    ensures LastOf(Stored(np), TypeField) == Some(Stored(np)[3])
  {
    var ps := Stored(np);
    StoredFields(np);
    assert ps[..|ps| - 1] == ps[..3] && ps[..3][..2] == ps[..2] && ps[..2][..1] == ps[..1];
    assert LastOf(ps[..1], NameField) == Some(ps[0]);
    assert LastOf(ps[..2], NameField) == Some(ps[0]);
    assert LastOf(ps[..3], NameField) == Some(ps[0]);
    assert LastOf(ps[..2], SubjectField) == Some(ps[1]);
    assert LastOf(ps[..3], SubjectField) == Some(ps[1]);
    assert LastOf(ps[..3], BodyField) == Some(ps[2]);
  }

  /** The property loop over a stored page recovers the four strings. */
  lemma StoredClassified(np: NewPage)
    requires np.name.Str? && np.subject.Str? && np.body.Str? && np.kind.Str?
    ensures Classify(Fields("", "", "", ""), Stored(np)) == Fields(np.name.s, np.subject.s, np.body.s, np.kind.s)
  {
    var props := Stored(np);
    var empty := Fields("", "", "", "");
    StoredLast(np);
    ClassifyField(empty, props, NameField);
    ClassifyField(empty, props, SubjectField);
    ClassifyField(empty, props, BodyField);
    ClassifyField(empty, props, TypeField);
    var fs := Classify(empty, props);
    assert fs.name == fs.Read(NameField) == np.name.s;
    assert fs.subject == fs.Read(SubjectField) == np.subject.s;
    assert fs.body == fs.Read(BodyField) == np.body.s;
    assert fs.kind == fs.Read(TypeField) == np.kind.s;
  }

  /** A saved template reads back as it was written, with the default type
      when none was given, and is listed exactly when it has a name. */
  lemma SaveThenList(id: string, d: Draft)
    requires d.name.Str? && d.subject.Str? && d.body.Str? && (d.kind.Str? || !Truthy(d.kind))
    ensures var np := PageFor(d);
      TemplateFor(Page(id, Some(Stored(np)))) == Some(Template(id, d.name.s, d.subject.s, d.body.s, np.kind.s, "notion"))
    ensures var np := PageFor(d);
      Listed([Page(id, Some(Stored(np)))]) == if d.name.s != "" then [Template(id, d.name.s, d.subject.s, d.body.s, np.kind.s, "notion")] else []
  {
    var np := PageFor(d);
    StoredClassified(np);
    assert [Page(id, Some(Stored(np)))][1..] == [];
  }
}
