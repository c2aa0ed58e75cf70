/** The behaviours the repository's tests exercise (tests/test_fields.py),
    stated over the model. The normaliser's outputs the tests rely on are
    hypotheses of each lemma, not facts proved here. */
module Scenarios {
  import opened Wrappers
  import opened Errors
  import opened Config
  import opened Store
  import opened Hook
  import opened Resolver
  import opened Host
  import HookProperties
  import Decimal

  /** `SlugField(populate_from='name', **extra)`. */
  function PopulatedField(alwaysUpdate: Option<bool>, manager: Option<string>): Result<SlugField, Error> {
    NewSlugField(FieldOptions(Some("name"), alwaysUpdate, None, manager, None, None))
  }

  /** A class with a `name` and a slug populated from it. */
  function PopulatedSchema(f: SlugField): Schema {
    [("name", PlainField), ("slug", SlugDecl(f))]
  }

  /** The filter of a manager that shows every record. */
  predicate Everything(d: StoredDoc) {
    true
  }

  /** A collection whose default manager shows every record. */
  function OpenCollection(docs: seq<StoredDoc>): Collection {
    Collection(docs, map[DefaultManager := Everything])
  }

  function Named(pk: Option<string>, name: string): Document {
    Document(pk, map["name" := name])
  }

  /** On a slug field populated from `name` that is recomputed, the hook
      writes the slug resolved from the normalised name against the view. */
  lemma PopulatedPreSave(f: SlugField, coll: Collection, norm: Normaliser, doc: Document)
    requires f.populateFrom == Some("name")
    requires f.querysetManager in coll.managers
    requires !Skips(doc, f)
    ensures PreSave(PopulatedSchema(f), coll, norm, doc)
         == Ok(doc.(data := doc.data["slug" := ResolveSlug(norm(f.normaliser, Lookup(doc.data, "name")), View(coll, f.querysetManager, "slug").value)]))
  {
    var schema := PopulatedSchema(f);
    assert schema[0].0 == "name";
    assert Declares(schema, "name");
    assert SourceName(f, "slug") == "name";
    var slug := ResolveSlug(norm(f.normaliser, Lookup(doc.data, "name")), View(coll, f.querysetManager, "slug").value);
    assert SlugFor(schema, coll, norm, doc, "slug", f) == Ok(slug);
    var after := doc.(data := doc.data["slug" := slug]);
    assert ApplyField(schema, coll, norm, doc, "name", PlainField) == Ok(doc);
    assert ApplyField(schema, coll, norm, doc, "slug", SlugDecl(f)) == Ok(after);
    assert PreSaveFrom(schema, coll, norm, after, 2) == Ok(after);
    assert PreSaveFrom(schema, coll, norm, doc, 1) == Ok(after);
  }

  /** A first save of a document named `name` into an open collection:
      the record is appended, holding the slug resolved against every
      stored slug. */
  lemma SaveNewPopulated(f: SlugField, docs: seq<StoredDoc>, norm: Normaliser, name: string, pk: string, slug: string)
    requires f.populateFrom == Some("name") && f.querysetManager == DefaultManager && f.unique
    requires pk != "" && forall i | 0 <= i < |docs| :: docs[i].pk != pk
    requires slug == ResolveSlug(norm(f.normaliser, Some(name)), ViewValues(docs, Everything, "slug"))
    ensures Save(PopulatedSchema(f), OpenCollection(docs), norm, Named(None, name), pk)
        == Ok((OpenCollection(docs + [StoredDoc(pk, map["name" := name, "slug" := slug])]),
               Document(Some(pk), map["name" := name, "slug" := slug])))
  {
    var schema := PopulatedSchema(f);
    var coll := OpenCollection(docs);
    var doc := Named(None, name);
    PopulatedPreSave(f, coll, norm, doc);
    assert Lookup(doc.data, "name") == Some(name);
    var data := map["name" := name, "slug" := slug];
    assert doc.data["slug" := slug] == data;
    assert UniqueFields(schema) == ["slug"] by {
      assert UniqueFields(schema[1..]) == ["slug"] by {
        assert schema[1..][1..] == [];
      }
    }
    var rec := StoredDoc(pk, data);
    assert !Clashes(docs, rec, "slug");
    assert Persist(coll, rec, ["slug"]) == Ok(OpenCollection(docs + [rec]));
  }

  /** A first save whose normalised name finds exactly attempts `0..k-1`
      taken gets attempt `k`. */
  lemma SaveAtAttempt(f: SlugField, docs: seq<StoredDoc>, norm: Normaliser, name: string, pk: string, k: nat)
    requires f.populateFrom == Some("name") && f.querysetManager == DefaultManager && f.unique
    requires pk != "" && forall i | 0 <= i < |docs| :: docs[i].pk != pk
    requires LeastFree(norm(f.normaliser, Some(name)), ViewValues(docs, Everything, "slug"), k)
    ensures Save(PopulatedSchema(f), OpenCollection(docs), norm, Named(None, name), pk)
         == Ok((OpenCollection(docs + [StoredDoc(pk, map["name" := name, "slug" := Candidate(norm(f.normaliser, Some(name)), k)])]),
                Document(Some(pk), map["name" := name, "slug" := Candidate(norm(f.normaliser, Some(name)), k)])))
  {
    var base := norm(f.normaliser, Some(name));
    ResolveAt(base, ViewValues(docs, Everything, "slug"), k);
    SaveNewPopulated(f, docs, norm, name, pk, Candidate(base, k));
  }

  /** The populated schema's only unique field is its slug. */
  lemma PopulatedUnique(f: SlugField)
    requires f.unique
    ensures UniqueFields(PopulatedSchema(f)) == ["slug"]
  {
    var schema := PopulatedSchema(f);
    assert schema[1..] == [("slug", SlugDecl(f))] && schema[1..][1..] == [];
    assert UniqueFields(schema[1..][1..]) == [];
    assert UniqueFields(schema[1..]) == ["slug"];
  }

  /** The record a save of `Named(_, name)` with slug `slug` stores. */
  function Stored(pk: string, name: string, slug: string): StoredDoc {
    StoredDoc(pk, map["name" := name, "slug" := slug])
  }

  /** The auto-slug field of tests/conftest.py:23-25, the title its tests
      save, and the normaliser's output for it. */
  function AutoField(): Result<SlugField, Error> {
    PopulatedField(None, None)
  }

  const AutoTitle: string := "Auto Slug Document"
  const AutoBase: string := "auto-slug-document"

  lemma AutoFieldShape()
    ensures AutoField().Ok?
    ensures AutoField().value.populateFrom == Some("name")
    ensures AutoField().value.querysetManager == DefaultManager
    ensures AutoField().value.unique && !AutoField().value.alwaysUpdate
  {
  }

  lemma ViewOfOne(a: StoredDoc, field: string)
    requires field in a.fields
    ensures ViewValues([a], Everything, field) == {a.fields[field]}
  {
    assert Shows([a][0], Everything, field, a.fields[field]);
  }

  /** The key the `i`-th save of a chain is given: "1", "2", ... */
  function ChainKey(i: nat): string {
    Decimal.NatToDecimal(i + 1)
  }

  /** The collection after `n` new documents named `name` are saved one
      after another into an empty collection, the `i`-th under
      `ChainKey(i)`. */
  function SavedChain(schema: Schema, norm: Normaliser, name: string, n: nat): Result<Collection, Error>
    decreases n
  {
    if n == 0 then Ok(OpenCollection([]))
    else
      var before :- SavedChain(schema, norm, name, n - 1);
      var saved :- Save(schema, before, norm, Named(None, name), ChainKey(n - 1));
      Ok(saved.0)
  }

  /** The records of such a chain in which the `i`-th save got attempt `i`. */
  function ChainRecords(name: string, base: string, n: nat): (docs: seq<StoredDoc>)
    ensures |docs| == n
    ensures forall i | 0 <= i < n :: docs[i] == Stored(ChainKey(i), name, Candidate(base, i))
    decreases n
  {
    if n == 0 then [] else ChainRecords(name, base, n - 1) + [Stored(ChainKey(n - 1), name, Candidate(base, n - 1))]
  }

  /** The slugs of a chain's records are its first `n` attempts. */
  lemma ChainView(name: string, base: string, n: nat)
    ensures ViewValues(ChainRecords(name, base, n), Everything, "slug") == Tried(base, n)
  {

  }

  /** One save of the chain: after the first `n` saves hold attempts
      `0..n-1`, the next document is stored with attempt `n`. */
  lemma ChainStep(f: SlugField, norm: Normaliser, name: string, n: nat)
    requires f.populateFrom == Some("name") && f.querysetManager == DefaultManager && f.unique
    ensures var base := norm(f.normaliser, Some(name));
      Save(PopulatedSchema(f), OpenCollection(ChainRecords(name, base, n)), norm, Named(None, name), ChainKey(n))
        == Ok((OpenCollection(ChainRecords(name, base, n + 1)), Document(Some(ChainKey(n)), Stored(ChainKey(n), name, Candidate(base, n)).fields)))
  {
    var base := norm(f.normaliser, Some(name));
    var docs := ChainRecords(name, base, n);
    ChainView(name, base, n);
    forall i | 0 <= i < n
      ensures Candidate(base, i) != Candidate(base, n)
    {
      CandidateInjective(base, i, n);
    }
    assert LeastFree(base, Tried(base, n), n);
    forall i | 0 <= i < |docs|
      ensures docs[i].pk != ChainKey(n)
    {
      Decimal.NatToDecimalInjective(i + 1, n + 1);
    }
    SaveAtAttempt(f, docs, norm, name, ChainKey(n), n);
  }

  /** tests/test_fields.py:64-78 for any number of saves: documents with the
      same name saved one after another into an empty collection get the
      base slug, then suffix 1, suffix 2, and so on, each save succeeding. */
  lemma {:induction false} ChainSlugs(f: SlugField, norm: Normaliser, name: string, n: nat)
    requires f.populateFrom == Some("name") && f.querysetManager == DefaultManager && f.unique
    ensures SavedChain(PopulatedSchema(f), norm, name, n)
         == Ok(OpenCollection(ChainRecords(name, norm(f.normaliser, Some(name)), n)))
    decreases n
  {
    if n > 0 {
      ChainSlugs(f, norm, name, n - 1);
      ChainStep(f, norm, name, n - 1);
    }
  }

  /** tests/test_fields.py:64-78: three documents named "Auto Slug Document"
      saved one after another into an empty collection get the base slug,
      then suffix 1, then suffix 2. */
  lemma ThreeFirstSaves(norm: Normaliser)
    requires AutoField().Ok?
    requires norm(AutoField().value.normaliser, Some(AutoTitle)) == AutoBase
    ensures var schema := PopulatedSchema(AutoField().value);
      var r1 := Stored("1", AutoTitle, AutoBase);
      var r2 := Stored("2", AutoTitle, AutoBase + "-1");
      var r3 := Stored("3", AutoTitle, AutoBase + "-2");
      SavedChain(schema, norm, AutoTitle, 3) == Ok(OpenCollection([r1, r2, r3]))
  {
    AutoFieldShape();
    ChainSlugs(AutoField().value, norm, AutoTitle, 3);
    ThreeChainRecords();
  }

  lemma ThreeChainRecords()
    ensures ChainRecords(AutoTitle, AutoBase, 3)
         == [Stored("1", AutoTitle, AutoBase), Stored("2", AutoTitle, AutoBase + "-1"), Stored("3", AutoTitle, AutoBase + "-2")]
  {
    assert ChainKey(0) == "1" && ChainKey(1) == "2" && ChainKey(2) == "3";
    assert Candidate(AutoBase, 1) == AutoBase + "-1";
    assert Candidate(AutoBase, 2) == AutoBase + "-2";
    var recs := ChainRecords(AutoTitle, AutoBase, 3);
    assert recs == [recs[0], recs[1], recs[2]];
  }

  /** tests/test_fields.py:81-92 and 29-33: re-saving a document that has a
      key, under a field that does not always update, writes back the
      document exactly as it was, even when its slug was reassigned. */
  lemma SaveKeepsIdentified(schema: Schema, coll: Collection, norm: Normaliser, doc: Document, freshPk: string)
    requires HasIdentity(doc)
    requires forall i | 0 <= i < |schema| && schema[i].1.SlugDecl? :: !schema[i].1.slug.alwaysUpdate
    ensures var r := Save(schema, coll, norm, doc, freshPk);
      r.Ok? ==> r.value.1 == doc
    ensures var r := Save(schema, coll, norm, doc, freshPk);
      r.Err? ==> r.error.NotUnique?
  {
    HookProperties.PreSaveKeepsIdentified(schema, coll, norm, doc, 0);
  }

  /** tests/test_fields.py:115-127: with `always_update`, a saved document
      whose name changed gets the slug of its new name. */
  lemma AlwaysUpdateFollowsName(norm: Normaliser)
    requires PopulatedField(Some(true), None).Ok?
    requires norm(PopulatedField(Some(true), None).value.normaliser, Some("I Can Haz New Slug")) == "i-can-haz-new-slug"
    ensures var f := PopulatedField(Some(true), None).value;
      var before := Stored("1", AutoTitle, AutoBase);
      var after := Stored("1", "I Can Haz New Slug", "i-can-haz-new-slug");
      Save(PopulatedSchema(f), OpenCollection([before]), norm, Document(Some("1"), before.fields["name" := "I Can Haz New Slug"]), "2")
        == Ok((OpenCollection([after]), Document(Some("1"), after.fields)))
  {
    var f := PopulatedField(Some(true), None).value;
    var before := Stored("1", AutoTitle, AutoBase);
    var doc := Document(Some("1"), before.fields["name" := "I Can Haz New Slug"]);
    var after := Stored("1", "I Can Haz New Slug", "i-can-haz-new-slug");
    ViewOfOne(before, "slug");
    assert "i-can-haz-new-slug" != AutoBase by {
      assert "i-can-haz-new-slug"[0] != AutoBase[0];
    }
    PopulatedPreSave(f, OpenCollection([before]), norm, doc);
    assert Lookup(doc.data, "name") == Some("I Can Haz New Slug");
    assert doc.data["slug" := "i-can-haz-new-slug"] == after.fields;
    assert UniqueFields(PopulatedSchema(f)) == ["slug"] by {
      assert PopulatedSchema(f)[1..][1..] == [];
    }
    assert Without([before], "1") == [];
    assert !Clashes([before], after, "slug");
    assert FirstClash([before], after, ["slug"]) == None;
    assert Without([before], "1") + [after] == [after];
    assert Persist(OpenCollection([before]), after, ["slug"]) == Ok(OpenCollection([after]));
  }

  /** A class whose slug is taken from the slug field itself
      (tests/test_fields.py:19-21). */
  function SelfSchema(f: SlugField): Schema {
    [("title", PlainField), ("slug", SlugDecl(f))]
  }

  /** tests/test_fields.py:23-27: with no `populate_from`, the text assigned
      to the slug field is normalised in place on the first save. */
  lemma SelfSourcedFirstSave(norm: Normaliser)
    requires NewSlugField(FieldOptions(None, None, None, None, None, None)).Ok?
    requires norm(NewSlugField(FieldOptions(None, None, None, None, None, None)).value.normaliser, Some("My document title"))
          == "my-document-title"
    ensures var f := NewSlugField(FieldOptions(None, None, None, None, None, None)).value;
      PreSave(SelfSchema(f), OpenCollection([]), norm, Document(None, map["slug" := "My document title"]))
        == Ok(Document(None, map["slug" := "my-document-title"]))
  {
    var f := NewSlugField(FieldOptions(None, None, None, None, None, None)).value;
    var schema := SelfSchema(f);
    var doc := Document(None, map["slug" := "My document title"]);
    assert schema[1].0 == "slug";
    assert Declares(schema, "slug");
    assert ViewValues([], Everything, "slug") == {};
    var after := Document(None, map["slug" := "my-document-title"]);
    assert SlugFor(schema, OpenCollection([]), norm, doc, "slug", f) == Ok("my-document-title");
    assert doc.data["slug" := "my-document-title"] == after.data;
    assert ApplyField(schema, OpenCollection([]), norm, doc, "slug", SlugDecl(f)) == Ok(after);
    assert PreSaveFrom(schema, OpenCollection([]), norm, after, 2) == Ok(after);
    assert PreSaveFrom(schema, OpenCollection([]), norm, doc, 1) == Ok(after);
  }

  /** The class of tests/test_fields.py:96-100: two names and a slug field
      populated from each. */
  function TwoSlugSchema(f: SlugField, g: SlugField): Schema {
    [("name", PlainField), ("name1", PlainField), ("slug", SlugDecl(f)), ("slug1", SlugDecl(g))]
  }

  /** Both slug fields of `TwoSlugSchema` resolve to the base against an
      empty collection. */
  lemma TwoSlugValues(f: SlugField, g: SlugField, norm: Normaliser)
    requires f.populateFrom == Some("name") && f.querysetManager == DefaultManager
    requires g.populateFrom == Some("name1") && g.querysetManager == DefaultManager
    requires norm(f.normaliser, Some(AutoTitle)) == AutoBase
    requires norm(g.normaliser, Some(AutoTitle)) == AutoBase
    ensures var doc := Document(None, map["name" := AutoTitle, "name1" := AutoTitle]);
      && SlugFor(TwoSlugSchema(f, g), OpenCollection([]), norm, doc, "slug", f) == Ok(AutoBase)
      && SlugFor(TwoSlugSchema(f, g), OpenCollection([]), norm, doc, "slug1", g) == Ok(AutoBase)
  {
    var schema := TwoSlugSchema(f, g);
    assert schema[0].0 == "name" && schema[1].0 == "name1";
    assert ViewValues([], Everything, "slug") == {};
    assert ViewValues([], Everything, "slug1") == {};
  }

  /** tests/test_fields.py:95-112: each slug field is resolved against its
      own stored values, so two slug fields populated from equal names both
      get the base slug, and the names are left as they were. */
  lemma TwoSlugFields(f: SlugField, g: SlugField, norm: Normaliser)
    requires f.populateFrom == Some("name") && f.querysetManager == DefaultManager
    requires g.populateFrom == Some("name1") && g.querysetManager == DefaultManager
    requires norm(f.normaliser, Some(AutoTitle)) == AutoBase
    requires norm(g.normaliser, Some(AutoTitle)) == AutoBase
    ensures var r := PreSave(TwoSlugSchema(f, g), OpenCollection([]), norm, Document(None, map["name" := AutoTitle, "name1" := AutoTitle]));
      && r.Ok?
      && Lookup(r.value.data, "slug") == Some(AutoBase)
      && Lookup(r.value.data, "slug1") == Some(AutoBase)
      && Lookup(r.value.data, "name") == Some(AutoTitle)
      && Lookup(r.value.data, "name1") == Some(AutoTitle)
  {
    var schema := TwoSlugSchema(f, g);
    var coll := OpenCollection([]);
    var doc := Document(None, map["name" := AutoTitle, "name1" := AutoTitle]);
    TwoSlugShape(f, g);
    TwoSlugNoFailure(f, g, norm);
    HookProperties.PreSaveFieldwise(schema, coll, norm, doc);
    assert schema[2] == ("slug", SlugDecl(f)) && !Skips(doc, f);
    assert schema[3] == ("slug1", SlugDecl(g)) && !Skips(doc, g);
  }

  /** `TwoSlugSchema` has distinct names, its slug fields read plain fields,
      and its plain fields are not slug fields. */
  lemma TwoSlugShape(f: SlugField, g: SlugField)
    requires f.populateFrom == Some("name") && g.populateFrom == Some("name1")
    ensures DistinctNames(TwoSlugSchema(f, g)) && HookProperties.SourcesIndependent(TwoSlugSchema(f, g))
    ensures !HookProperties.SlugAmong(TwoSlugSchema(f, g), 4, "name")
    ensures !HookProperties.SlugAmong(TwoSlugSchema(f, g), 4, "name1")
  {
  }

  /** No field of `TwoSlugSchema` fails for the test's document. */
  lemma TwoSlugNoFailure(f: SlugField, g: SlugField, norm: Normaliser)
    requires f.populateFrom == Some("name") && f.querysetManager == DefaultManager
    requires g.populateFrom == Some("name1") && g.querysetManager == DefaultManager
    requires norm(f.normaliser, Some(AutoTitle)) == AutoBase
    requires norm(g.normaliser, Some(AutoTitle)) == AutoBase
    ensures forall i | 0 <= i < 4 ::
      !HookProperties.FailsOn(TwoSlugSchema(f, g), OpenCollection([]), norm, Document(None, map["name" := AutoTitle, "name1" := AutoTitle]), i)
  {
    TwoSlugValues(f, g, norm);
  }

  /** tests/test_fields.py:184-216: the collision search only sees the
      records the configured manager returns, while uniqueness is enforced
      on every record. A record hidden from the manager that already holds
      the base slug makes the save fail. */
  lemma HiddenCollisionRejected(f: SlugField, coll: Collection, norm: Normaliser, name: string, pk: string)
    requires f.populateFrom == Some("name") && f.unique
    requires f.querysetManager in coll.managers
    requires norm(f.normaliser, Some(name)) !in View(coll, f.querysetManager, "slug").value
    requires exists i | 0 <= i < |coll.docs| ::
      && coll.docs[i].pk != pk
      && "slug" in coll.docs[i].fields
      && coll.docs[i].fields["slug"] == norm(f.normaliser, Some(name))
    ensures Save(PopulatedSchema(f), coll, norm, Named(None, name), pk) == Err(NotUnique("slug"))
  {
    var schema := PopulatedSchema(f);
    var doc := Named(None, name);
    var base := norm(f.normaliser, Some(name));
    PopulatedPreSave(f, coll, norm, doc);
    assert Lookup(doc.data, "name") == Some(name);
    var data := doc.data["slug" := base];
    assert data["slug"] == base;
    PopulatedUnique(f);
    assert Clashes(coll.docs, StoredDoc(pk, data), "slug");
  }
}
