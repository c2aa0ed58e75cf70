/** `SlugField.__init__` (mongoengine_slugfield/fields.py): the options a
    slug field is declared with, their defaults, and the arguments handed to
    the normaliser's constructor. */
module Config {
  import opened Wrappers
  import opened Errors

  /** A keyword-argument value for the normaliser (awesome-slugify's
      `Slugify`): `None`, a flag, a substitution table or a text. */
  datatype SlugifyArg = NoneArg | BoolArg(flag: bool) | TableArg(table: map<string, string>) | TextArg(text: string)

  type SlugifyArgs = map<string, SlugifyArg>

  /** The keyword arguments a caller may pass; `None` means "not passed". */
  datatype FieldOptions = FieldOptions(
    populateFrom: Option<string>,
    alwaysUpdate: Option<bool>,
    allowUnicode: Option<bool>,
    querysetManager: Option<string>,
    slugifyKwargs: Option<SlugifyArgs>,
    unique: Option<bool>)

  /** A constructed slug field. `normaliser` holds the keyword arguments
      the normaliser was constructed with. */
  datatype SlugField = SlugField(
    populateFrom: Option<string>,
    alwaysUpdate: bool,
    allowUnicode: bool,
    querysetManager: string,
    unique: bool,
    slugifyKwargs: SlugifyArgs,
    normaliser: SlugifyArgs)

  const DefaultManager: string := "objects"

  /** Declaring a slug field. The field is always unique and always
      lower-cases; with `allow_unicode` (the default) the normaliser is told
      not to transliterate, which fails when the caller's arguments already
      name `translate`. */
  function NewSlugField(opts: FieldOptions): (r: Result<SlugField, Error>)
    ensures r.Ok? <==> !(opts.allowUnicode.GetOr(true) && "translate" in opts.slugifyKwargs.GetOr(map[]))
    ensures r.Err? ==> r.error == DuplicateKeyword("translate")
    ensures r.Ok? ==> r.value.unique
    ensures r.Ok? ==> r.value.populateFrom == opts.populateFrom
    ensures r.Ok? ==> r.value.alwaysUpdate == (opts.alwaysUpdate.Some? && opts.alwaysUpdate.value)
    ensures r.Ok? ==> r.value.allowUnicode == (opts.allowUnicode.None? || opts.allowUnicode.value)
    ensures r.Ok? ==> r.value.querysetManager == (if opts.querysetManager.Some? then opts.querysetManager.value else "objects")
    ensures r.Ok? ==> "to_lower" in r.value.normaliser && r.value.normaliser["to_lower"] == BoolArg(true)
    ensures r.Ok? ==> "to_lower" in r.value.slugifyKwargs && r.value.slugifyKwargs["to_lower"] == BoolArg(true)
    ensures r.Ok? && r.value.allowUnicode ==>
      r.value.normaliser.Keys == opts.slugifyKwargs.GetOr(map[]).Keys + {"to_lower", "translate"}
      && r.value.normaliser["translate"] == NoneArg
    ensures r.Ok? && !r.value.allowUnicode ==>
      r.value.normaliser.Keys == opts.slugifyKwargs.GetOr(map[]).Keys + {"to_lower"}
    ensures r.Ok? ==> forall k | k in opts.slugifyKwargs.GetOr(map[]) && k != "to_lower" ::
      k in r.value.normaliser && r.value.normaliser[k] == opts.slugifyKwargs.GetOr(map[])[k]
  {
    var allowUnicode := opts.allowUnicode.GetOr(true);
    var kwargs := opts.slugifyKwargs.GetOr(map[])["to_lower" := BoolArg(true)];
    if allowUnicode && "translate" in kwargs then
      Err(DuplicateKeyword("translate"))
    else
      Ok(SlugField(
        opts.populateFrom,
        opts.alwaysUpdate.GetOr(false),
        allowUnicode,
        opts.querysetManager.GetOr(DefaultManager),
        true,
        kwargs,
        if allowUnicode then kwargs["translate" := NoneArg] else kwargs))
  }

  /** The name of the attribute the slug is computed from:
      `populate_from or fieldname`, so an empty `populate_from` also falls
      back to the slug field itself. */
  function SourceName(f: SlugField, fieldName: string): (src: string)
    ensures f.populateFrom.None? || f.populateFrom.value == "" ==> src == fieldName
    ensures f.populateFrom.Some? && f.populateFrom.value != "" ==> src == f.populateFrom.value
    ensures src == fieldName || (f.populateFrom.Some? && src == f.populateFrom.value)
  {
    if f.populateFrom.Some? && f.populateFrom.value != "" then f.populateFrom.value else fieldName
  }
}
