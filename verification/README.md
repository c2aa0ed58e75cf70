# mongoengine-slugfield in Dafny

A model of `SlugField`, the MongoEngine field type that fills a document's
slug from another attribute when the document is saved. It covers three
parts of `mongoengine_slugfield/fields.py`:

- **Field declaration** (`SlugField.__init__`). The defaults: no
  `populate_from`, `always_update` off, `allow_unicode` on, manager
  `objects`. A slug field is always declared unique, and `to_lower` is
  always forced on.
- **Suffix resolution** (`SlugField._generate_slug`). The normalised base
  is tried first, then `base-1`, `base-2`, and so on. Each attempt is
  checked against the configured queryset manager's view of the collection.
  The first attempt the view does not hold is returned.
- **The pre-save hook** (`create_slug_signal`). A slug field is left alone
  when the document already has a key and the field does not always
  update. Otherwise the field is overwritten with the slug resolved from
  `populate_from`, or from the slug field itself when `populate_from` is
  not set.

The modules follow that structure.

- `Wrappers` holds `Option` and `Result`.
- `Errors` holds the Python exceptions the code can raise.
- `Decimal` renders `%s` of a counter.
- `Resolver` is the suffix search over a finite set of taken slugs.
- `Config` is field declaration.
- `Store` holds stored records, queryset managers as filters, the `count()`
  query and the unique index.
- `Hook` holds `_generate_slug` and `create_slug_signal`.
- `HookProperties` holds the hook's per-field guarantees.
- `Host` is the save that runs the hook and then writes.
- `Scenarios` restates the repository's tests.
- `SelfExclusion` holds the finding below.

The normaliser (awesome-slugify's `Slugify`) is a function-valued parameter.
Its outputs appear in the scenarios only as hypotheses, for example "the
normaliser maps `Auto Slug Document` to `auto-slug-document`".

Python truthiness is modelled where the code relies on it:

- `populate_from or fieldname` also falls back to the field name when
  `populate_from` is the empty string.
- `document.pk` counts as absent when it is the empty string.

Exceptions are modelled as `Err` values:

- reading a source attribute that is not a declared field, or a missing
  manager, is `AttributeError` (Python's `getattr` also reads properties,
  methods and `pk`; see `Hook.Getattr` under "## Left out").
- `Slugify(translate=None, **kwargs)` when `slugify_kwargs` already names
  `translate` is a duplicate-keyword `TypeError`.
- A write that clashes on a unique field is `NotUniqueError`.

The collision query counts every matching record in the manager's view,
including the stored copy of the document being saved. The repository's
tests expect a match that is the document itself not to count
(tests/test_fields.py:15 and 29-30), but the query does not leave it out.
The model follows the code, and the consequence is logged under
"## Findings".

## Model

| member | source | states |
|---|---|---|
| Decimal.DecimalRoundTrip | mongoengine_slugfield/fields.py:52 | reading the decimal rendering of the suffix counter back gives the counter |
| Decimal.NatToDecimalInjective | mongoengine_slugfield/fields.py:52 | two different counters never render to the same digits |
| Resolver.Candidate | mongoengine_slugfield/fields.py:49-52 | attempt 0 is the base itself; every later attempt is the base, a hyphen and at least one more character |
| Resolver.CandidateInjective | mongoengine_slugfield/fields.py:52 | different attempt numbers give different strings, so the loop never retries a value |
| Resolver.TriedSize | mongoengine_slugfield/fields.py:51-53 | the first n attempts are n distinct strings |
| Resolver.TakenBound | mongoengine_slugfield/fields.py:51-53 | if the first n attempts are all taken, the view holds at least n values, which bounds the loop |
| Resolver.ResolveFrom | mongoengine_slugfield/fields.py:51-53 | continuing the search from attempt k returns an attempt at least k that is free, with every attempt before it taken |
| Resolver.ResolveSlug | mongoengine_slugfield/fields.py:47-54 | the slug is not in the view; it is the base when the base is free; otherwise it is `base-n` with n at least 1; it is the least free attempt |
| Resolver.ResolvedSuffixMinimal | mongoengine_slugfield/fields.py:48-53 | a result `base-n` means the base and every `base-i` with 1 <= i < n were taken |
| Resolver.ResolveAt | mongoengine_slugfield/fields.py:47-54 | if attempt k is the least free attempt, the result is attempt k |
| Resolver.SuccessiveSuffixes | mongoengine_slugfield/fields.py:48-53 | when the view holds attempts below k and none from k on, n successive saves, each adding its slug to the view, get attempts k, k+1, ... with no gaps |
| Store.MatchCountPositive | mongoengine_slugfield/fields.py:51 | `count()` of records in the view holding a value is positive exactly when the value is among the view's slugs |
| Store.View | mongoengine_slugfield/fields.py:51 | a missing manager is an `AttributeError`; otherwise the view holds exactly the values of the records the manager keeps |
| Store.FirstClash | mongoengine_slugfield/fields.py:34 | no field is reported exactly when no unique field clashes with another record; a reported field is unique and clashes |
| Store.Without | mongoengine_slugfield/fields.py:34 | dropping the records with a key keeps exactly the other records, and changes nothing when no record has that key |
| Store.WithoutAppend | mongoengine_slugfield/fields.py:34 | dropping a key's records distributes over concatenation |
| Store.Persist | mongoengine_slugfield/fields.py:34 | a write fails with `NotUniqueError` exactly when a unique field clashes with a record that has another key; otherwise the record replaces its older version and every other record stays |
| Config.NewSlugField | mongoengine_slugfield/fields.py:29-45 | the declaration itself rejects only a `translate` the caller passed while unicode is allowed; the field is unique; the defaults are as listed; `to_lower` is forced; `translate=None` is added only with unicode; the caller's other arguments are kept |
| Config.SourceName | mongoengine_slugfield/fields.py:20 | the slug is read from `populate_from` when it is set and non-empty, otherwise from the slug field itself |
| Hook.GenerateSlugSpec | mongoengine_slugfield/fields.py:47-54 | with a missing manager the result is an error; otherwise the slug is outside the manager's view and is the least free attempt for the normalised value |
| Hook.GenerateSlug | mongoengine_slugfield/fields.py:47-54 | the counting loop returns the least free attempt, and it terminates because every rejected attempt is a distinct value of the finite view |
| Hook.SlugFor | mongoengine_slugfield/fields.py:18-21 | the slug for a field fails exactly when its source is not a declared field or its manager is missing; otherwise it is outside the manager's view and is the least free attempt for the normalised value of the source |
| Hook.ApplyField | mongoengine_slugfield/fields.py:14-21 | a plain field and a skipped slug field leave the document as it is; a recomputed slug field gets the resolved slug or the error; no other entry and not the key is touched |
| Hook.PreSave | mongoengine_slugfield/fields.py:12-21 | the hook never changes the document's key |
| HookProperties.PreSaveKeepsIdentified | mongoengine_slugfield/fields.py:15-16 | a document that has a key, whose slug fields do not always update, leaves the hook unchanged, whatever its slug fields hold |
| HookProperties.StepFieldwise | mongoengine_slugfield/fields.py:14-21 | when no slug field is another's source, one step of the loop fails exactly when its field is recomputed and fails, and otherwise leaves the earlier fields as they were and handles its own field from the original document's values |
| HookProperties.PreSaveFromFieldwise | mongoengine_slugfield/fields.py:13-21 | when no slug field is another's source, the loop from field k on fails exactly when a later recomputed field fails, and otherwise leaves every field as the per-field rule says for the original document |
| HookProperties.PreSaveFieldwise | mongoengine_slugfield/fields.py:12-21 | when no slug field is another's source: the hook fails exactly when one recomputed field fails; non-slug and skipped fields are unchanged; every recomputed field holds the slug computed from the original document |
| Host.UniqueFields | mongoengine_slugfield/fields.py:34 | the fields the store keeps unique are exactly the class's slug fields declared unique |
| Host.Save | mongoengine_slugfield/fields.py:60 | a save runs the hook first; a hook error aborts the save; the document gets a key; the saved values are stored; a failed write is a uniqueness error |
| Scenarios.PopulatedPreSave | mongoengine_slugfield/fields.py:15-21 | for a class with `name` and `slug = SlugField(populate_from='name')`, a recomputing hook writes exactly the slug resolved from the name |
| Scenarios.SaveNewPopulated | tests/test_fields.py:57-61 | a new document of that class is stored, under a fresh key, with its name and the slug resolved against the stored slugs |
| Scenarios.SaveAtAttempt | tests/test_fields.py:64-78 | when attempt k is the least free attempt, a new document is stored with attempt k |
| Scenarios.ChainStep | tests/test_fields.py:64-78 | when the first n saves of a name hold attempts 0 to n-1, the next new document with that name is stored with attempt n |
| Scenarios.ChainSlugs | tests/test_fields.py:64-78 | any number of new documents with the same name, saved one after another into an empty collection, all succeed and the i-th is stored with attempt i: the base, then suffix 1, 2, ... |
| Scenarios.ThreeFirstSaves | tests/test_fields.py:64-78 | three documents named "Auto Slug Document" saved in turn are stored as `auto-slug-document`, `auto-slug-document-1` and `auto-slug-document-2` |
| Scenarios.SaveKeepsIdentified | tests/test_fields.py:81-92 | re-saving a document that has a key, without `always_update`, gives back exactly that document, even after its slug was reassigned |
| Scenarios.AlwaysUpdateFollowsName | tests/test_fields.py:115-127 | with `always_update`, the saved document whose name changed carries the new name's slug, and the model's whole-record write stores it |
| Scenarios.SelfSourcedFirstSave | tests/test_fields.py:19-27 | without `populate_from`, the text assigned to the slug field is normalised in place on the first save |
| Scenarios.TwoSlugFields | tests/test_fields.py:95-112 | two slug fields populated from equal names both get the base slug, and the names are untouched |
| Scenarios.HiddenCollisionRejected | tests/test_fields.py:195-216 | when the manager hides a record that holds the base slug, the hook picks the base and the save fails with `NotUniqueError` |
| SelfExclusion.ForcedResaveDrifts | mongoengine_slugfield/fields.py:51 | as written, a forced re-save never keeps the slug its stored copy holds |
| SelfExclusion.ResaveAddsSuffix | mongoengine_slugfield/fields.py:51-53 | as written, an unchanged record `{name: "A", slug: "a"}` re-saved with `always_update` comes back as `a-1`, and the whole-record write stores it |
| SelfExclusion.ResaveDropsSuffix | mongoengine_slugfield/fields.py:51-53 | as written, once `a-1` is stored, saving that record again gives `a` |
| SelfExclusion.Others | mongoengine_slugfield/fields.py:15-21 | the corrected search considers every record but the document's own stored copy |
| SelfExclusion.CorrectedPreSave | mongoengine_slugfield/fields.py:12-21 | the corrected hook agrees with the hook as written on every document without a key, and keeps the key |
| SelfExclusion.CorrectedAgreesWhenSkipped | mongoengine_slugfield/fields.py:15-16 | on a document with a key whose slug fields do not always update, the corrected hook and the hook as written both return the document unchanged |
| SelfExclusion.CorrectedSave | mongoengine_slugfield/fields.py:60 | a save through the corrected hook gives the document a key and stores its values |
| SelfExclusion.CorrectedSaveShape | mongoengine_slugfield/fields.py:15-21 | a corrected forced save succeeds exactly when its record clashes with no other record, and then stores the slug computed against the other records |
| SelfExclusion.OthersAfterWrite | mongoengine_slugfield/fields.py:51 | after a document is written, the records other than its own are the ones there were before |
| SelfExclusion.RewriteNoClash | mongoengine_slugfield/fields.py:34 | a record that clashed with no other record still clashes with none after replacing its older version |
| SelfExclusion.CorrectedResaveStable | mongoengine_slugfield/fields.py:15-21 | with the corrected hook, saving again what a save stored changes nothing |
| SelfExclusion.CorrectedFollowsName | tests/test_fields.py:115-127 | with the corrected hook, the renamed document of the same test also gets the new name's slug |
| SelfExclusion.CorrectedResaveKeepsSlug | mongoengine_slugfield/fields.py:51-53 | with the corrected hook, the record `{name: "A", slug: "a"}` re-saved with `always_update` keeps `a` |

## Left out

- The normaliser, awesome-slugify's `Slugify` (fields.py:6, 41-43), is a foreign library whose transliteration tables cannot be seen. It is a function parameter. The unicode, transliteration and `pretranslate` tests (tests/test_fields.py:46-54 and 130-181) state only its outputs, so they are not restated.
- The lazy registration of the hook in `SlugField.__get__` (fields.py:56-62) is a one-time global side effect of MongoEngine's signal plumbing. `Host.Save` simply runs the hook before every write.
- Database I/O is not modelled: the queries, `save`, `reload`, `objects.first()` and the connection fixtures in tests/conftest.py. The collection is a sequence of records, and a queryset manager is a filter over it.
- The check-then-write race between concurrent saves is out of scope. The code has no concurrency logic, and the model is sequential.
- The caller's `slugify_kwargs` dictionary is mutated in place (fields.py:36-39), a Python aliasing effect. Only the stored arguments are modelled, with `to_lower` forced on.
- The remaining `StringField` options and their validation (fields.py:45) are not modelled. This includes `db_field` renaming: the count query uses the attribute name, which is `db_field`'s default.
- `document._fields` is a dictionary, so the hook's field order is MongoEngine's. The model processes fields in declaration order. The per-field guarantees are stated for classes where no slug field is another slug field's source, where order does not matter.
- When a later slug field raises, the hook has already written earlier slugs into the in-memory document. The model returns only the error.
- The store's handling of a record with no value in a unique field (MongoDB indexes it as null) is not modelled. A record without a slug never clashes.
- `Host.Save` is a simplified MongoEngine save. It runs the hook, assigns a fresh key to a document without one, rejects a clash on a unique slug field, and replaces the record with the same key. Validation, other unique fields and write concerns are not modelled. An update is modelled as a write of the whole record. The real save of a document that already has a key may send only the fields marked as changed, and the hook writes `_data` directly (fields.py:18) without marking anything, so a slug recomputed on an update may not reach the store. The hook's effect on the saved document itself (fields.py:18-21) does not depend on this.
- Hook.Getattr: only declared fields can be sources. Python's `getattr(document, ...)` (fields.py:20) also reads properties, methods and `pk`, which the model reports as `AttributeError`; the model's documents hold field values only.
- Config.NewSlugField: the library constructor's own keyword checking is not modelled. `Slugify(...)` (fields.py:41, 43) may reject a keyword in `slugify_kwargs` it does not accept, while the model accepts every keyword other than a duplicate `translate`.
- Hook.PreSave: its own contract states only that the key is unchanged. What it does to each field is stated by `HookProperties.PreSaveFieldwise`, for classes whose slug fields are not each other's sources.

## Findings

| source | as written | input that shows it | evidently intended | confidence | as-written member | corrected member |
|---|---|---|---|---|---|---|
| mongoengine_slugfield/fields.py:51 | with `always_update`, the count query also counts the stored copy of the document being saved, so the slug the document already has is always taken | a stored record `{pk: "p1", name: "A", slug: "a"}`, re-saved unchanged with `always_update=True`, where the normaliser maps "A" to "a": the saved document comes back with slug `a-1` (the hook alone shows this); if `a-1` is then stored, as the model's whole-record write does, the next save gives `a` again | a re-save of an unchanged record keeps its slug; the document's own record is left out of the collision search | not executed; high for the behaviour of the query as written | SelfExclusion.ForcedResaveDrifts, SelfExclusion.ResaveAddsSuffix, SelfExclusion.ResaveDropsSuffix | SelfExclusion.CorrectedResaveStable, SelfExclusion.CorrectedResaveKeepsSlug |

The corrected hook, `SelfExclusion.CorrectedPreSave`, runs the same hook
against the records other than the document's own. It agrees with the hook
as written on every document without a key, and on every document whose
slug fields do not always update (`SelfExclusion.CorrectedAgreesWhenSkipped`).
The one test that re-saves a keyed document with `always_update`
(tests/test_fields.py:115-127) gives the same result under both hooks,
because no record holds the new name's slug (`Scenarios.AlwaysUpdateFollowsName`
and `SelfExclusion.CorrectedFollowsName`). `Scenarios` states the tests
against the hook as written.
