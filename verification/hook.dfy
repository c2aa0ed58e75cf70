/** The pre-save hook `create_slug_signal` and the resolution loop
    `SlugField._generate_slug` (mongoengine_slugfield/fields.py). The
    normaliser is a parameter: it stands for awesome-slugify's `Slugify`
    constructed with the field's keyword arguments. */
module Hook {
  import opened Wrappers
  import opened Errors
  import opened Config
  import opened Store
  import opened Resolver

  /** A declared field of a document class: a slug field, or any other. */
  datatype FieldDecl = PlainField | SlugDecl(slug: SlugField)

  /** The fields of a document class in declaration order. */
  type Schema = seq<(string, FieldDecl)>

  /** An in-memory document: its primary key (`None` before the first save)
      and its field values (an unset field is absent). */
  datatype Document = Document(pk: Option<string>, data: map<string, string>)

  /** The normaliser applied to a source value (`None` when unset). */
  type Normaliser = (SlugifyArgs, Option<string>) -> string

  predicate DistinctNames(schema: Schema) {
    forall i, j | 0 <= i < j < |schema| :: schema[i].0 != schema[j].0
  }

  predicate Declares(schema: Schema, name: string) {
    exists i | 0 <= i < |schema| :: schema[i].0 == name
  }

  function Lookup(data: map<string, string>, name: string): Option<string> {
    if name in data then Some(data[name]) else None
  }

  /** `document.pk` is truthy: a key is assigned and it is not empty. */
  predicate HasIdentity(doc: Document) {
    doc.pk.Some? && doc.pk.value != ""
  }

  /** The decision rule: the hook leaves a slug field alone exactly when the
      document already has a key and the field does not always update. */
  predicate Skips(doc: Document, f: SlugField) {
    HasIdentity(doc) && !f.alwaysUpdate
  }

  /** `getattr(document, name)`: the field's value, `None` when unset, and
      `AttributeError` when the class declares no such field. */
  function Getattr(schema: Schema, doc: Document, name: string): (r: Result<Option<string>, Error>)
    ensures r.Err? <==> !Declares(schema, name)
    ensures r.Err? ==> r.error == NoSuchAttribute(name)
    ensures r.Ok? ==> r.value == Lookup(doc.data, name)
  {
    if Declares(schema, name) then Ok(Lookup(doc.data, name)) else Err(NoSuchAttribute(name))
  }

  /** What `_generate_slug` computes for source value `value`: the least
      free candidate of the normalised value in the manager's view of the
      slug field. */
  function GenerateSlugSpec(coll: Collection, norm: Normaliser, f: SlugField, name: string, value: Option<string>): (r: Result<string, Error>)
    ensures r.Err? <==> f.querysetManager !in coll.managers
    ensures r.Err? ==> r.error == NoSuchManager(f.querysetManager)
    ensures r.Ok? ==> r.value !in View(coll, f.querysetManager, name).value
    ensures r.Ok? ==> exists k: nat ::
                        && r.value == Candidate(norm(f.normaliser, value), k)
                        && LeastFree(norm(f.normaliser, value), View(coll, f.querysetManager, name).value, k)
  {
    var taken :- View(coll, f.querysetManager, name);
    Ok(ResolveSlug(norm(f.normaliser, value), taken))
  }

  /** `_generate_slug` as written: count the view's records holding the
      attempt, and while that count is positive try the next suffix. The
      loop terminates because each rejected attempt is a distinct value of
      the finite view. */
  method GenerateSlug(coll: Collection, norm: Normaliser, f: SlugField, name: string, value: Option<string>)
    returns (r: Result<string, Error>)
    ensures r == GenerateSlugSpec(coll, norm, f, name, value)
  {
    var base := norm(f.normaliser, value);
    if f.querysetManager !in coll.managers {
      return Err(NoSuchManager(f.querysetManager));
    }
    var keep := coll.managers[f.querysetManager];
    ghost var taken := ViewValues(coll.docs, keep, name);
    var count: nat := 1;
    var attempt := base;
    MatchCountPositive(coll.docs, keep, name, attempt);
    while MatchCount(coll.docs, keep, name, attempt) > 0
      invariant 1 <= count
      invariant attempt == Candidate(base, count - 1)
      invariant forall i | 0 <= i < count - 1 :: Candidate(base, i) in taken
      invariant count - 1 <= |taken|
      invariant MatchCount(coll.docs, keep, name, attempt) > 0 <==> attempt in taken
      decreases |taken| - (count - 1)
    {
      TakenBound(base, taken, count);
      attempt := base + "-" + Decimal.NatToDecimal(count);
      count := count + 1;
      MatchCountPositive(coll.docs, keep, name, attempt);
    }
    ResolveAt(base, taken, count - 1);
    r := Ok(attempt);
  }

  /** The slug the hook computes for slug field `name`, reading its source
      from `doc`. */
  function SlugFor(schema: Schema, coll: Collection, norm: Normaliser, doc: Document, name: string, f: SlugField): (r: Result<string, Error>)
    ensures !Declares(schema, SourceName(f, name)) ==> r == Err(NoSuchAttribute(SourceName(f, name)))
    ensures Declares(schema, SourceName(f, name)) ==>
      r == GenerateSlugSpec(coll, norm, f, name, Lookup(doc.data, SourceName(f, name)))
    ensures r.Err? <==> !Declares(schema, SourceName(f, name)) || f.querysetManager !in coll.managers
    ensures r.Ok? ==> r.value !in View(coll, f.querysetManager, name).value
    ensures r.Ok? ==> exists k: nat ::
                        && r.value == Candidate(norm(f.normaliser, Lookup(doc.data, SourceName(f, name))), k)
                        && LeastFree(norm(f.normaliser, Lookup(doc.data, SourceName(f, name))), View(coll, f.querysetManager, name).value, k)
  {
    var value :- Getattr(schema, doc, SourceName(f, name));
    GenerateSlugSpec(coll, norm, f, name, value)
  }

  /** One iteration of the hook's loop over the document's fields: only a
      slug field that is not skipped is touched, and only its own entry is
      written. */
  function ApplyField(schema: Schema, coll: Collection, norm: Normaliser, doc: Document, name: string, decl: FieldDecl): (r: Result<Document, Error>)
    ensures decl.PlainField? ==> r == Ok(doc)
    ensures decl.SlugDecl? && Skips(doc, decl.slug) ==> r == Ok(doc)
    ensures decl.SlugDecl? && !Skips(doc, decl.slug) ==>
      && (r.Ok? <==> SlugFor(schema, coll, norm, doc, name, decl.slug).Ok?)
      && (r.Err? ==> r.error == SlugFor(schema, coll, norm, doc, name, decl.slug).error)
      && (r.Ok? ==> Lookup(r.value.data, name) == Some(SlugFor(schema, coll, norm, doc, name, decl.slug).value))
    ensures r.Ok? ==> r.value.pk == doc.pk
    ensures r.Ok? ==> forall n | n != name :: Lookup(r.value.data, n) == Lookup(doc.data, n)
  {
    match decl
    case PlainField => Ok(doc)
    case SlugDecl(f) =>
      if Skips(doc, f) then Ok(doc)
      else
        var slug :- SlugFor(schema, coll, norm, doc, name, f);
        Ok(doc.(data := doc.data[name := slug]))
  }

  /** The hook's loop from field `k` on. */
  function PreSaveFrom(schema: Schema, coll: Collection, norm: Normaliser, doc: Document, k: nat): (r: Result<Document, Error>)
    requires k <= |schema|
    ensures r.Ok? ==> r.value.pk == doc.pk
    decreases |schema| - k
  {
    if k == |schema| then Ok(doc)
    else
      var next :- ApplyField(schema, coll, norm, doc, schema[k].0, schema[k].1);
      PreSaveFrom(schema, coll, norm, next, k + 1)
  }

  /** `create_slug_signal`: the document as the hook leaves it. */
  function PreSave(schema: Schema, coll: Collection, norm: Normaliser, doc: Document): (r: Result<Document, Error>)
    ensures r.Ok? ==> r.value.pk == doc.pk
  {
    PreSaveFrom(schema, coll, norm, doc, 0)
  }
}
