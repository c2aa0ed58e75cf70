/** Re-saving a document whose slug is recomputed on every save
    (`always_update`). The hook's collision search counts every record the
    manager shows, including the document's own stored copy, so such a
    re-save can never keep the slug it already has. The repository's tests
    expect a matching record that is the document itself not to count
    (tests/test_fields.py:15 and 29-30); `CorrectedPreSave` leaves the
    document's own record out of the search, and a re-save through it is
    stable. */
module SelfExclusion {
  import opened Wrappers
  import opened Errors
  import opened Config
  import opened Store
  import opened Resolver
  import opened Hook
  import opened Host
  import opened Scenarios
  import Decimal
  import HookProperties

  // ---------------------------------------------------------------------
  // The hook as written

  /** A forced re-save never keeps the slug the document's stored copy
      holds, because that copy is itself a match in the collision search. */
  lemma ForcedResaveDrifts(f: SlugField, docs: seq<StoredDoc>, norm: Normaliser, i: nat)
    requires f.populateFrom == Some("name") && f.alwaysUpdate && f.querysetManager == DefaultManager
    requires i < |docs| && docs[i].pk != "" && "slug" in docs[i].fields
    ensures var r := PreSave(PopulatedSchema(f), OpenCollection(docs), norm, Document(Some(docs[i].pk), docs[i].fields));
      && r.Ok?
      && Lookup(r.value.data, "slug") != Some(docs[i].fields["slug"])
  {
    var doc := Document(Some(docs[i].pk), docs[i].fields);
    var coll := OpenCollection(docs);
    PopulatedPreSave(f, coll, norm, doc);
    assert Shows(docs[i], Everything, "slug", docs[i].fields["slug"]);
    assert docs[i].fields["slug"] in View(coll, DefaultManager, "slug").value;
  }

  /** The stored record `Stored(pk, "A", slug)` re-saved unchanged. */
  function Resaved(pk: string, slug: string): Document {
    Document(Some(pk), Stored(pk, "A", slug).fields)
  }

  /** Concretely: a record named "A" with slug "a", re-saved unchanged with
      `always_update`, is stored with slug "a-1". */
  lemma ResaveAddsSuffix(norm: Normaliser)
    requires PopulatedField(Some(true), None).Ok?
    requires norm(PopulatedField(Some(true), None).value.normaliser, Some("A")) == "a"
    ensures Save(PopulatedSchema(PopulatedField(Some(true), None).value), OpenCollection([Stored("p1", "A", "a")]), norm, Resaved("p1", "a"), "p2")
         == Ok((OpenCollection([Stored("p1", "A", "a-1")]), Resaved("p1", "a-1")))
  {
    var f := PopulatedField(Some(true), None).value;
    var before := Stored("p1", "A", "a");
    var after := Stored("p1", "A", "a-1");
    var doc := Resaved("p1", "a");
    var coll := OpenCollection([before]);
    ViewOfOne(before, "slug");
    assert Decimal.NatToDecimal(1) == "1";
    assert LeastFree("a", {"a"}, 1);
    ResolveAt("a", {"a"}, 1);
    assert Candidate("a", 1) == "a-1";
    assert Lookup(doc.data, "name") == Some("A");
    assert f.querysetManager == DefaultManager;
    assert View(coll, f.querysetManager, "slug").value == {"a"};
    assert ResolveSlug("a", {"a"}) == "a-1";
    assert doc.data["slug" := "a-1"] == after.fields;
    PopulatedPreSave(f, coll, norm, doc);
    PopulatedUnique(f);
    assert Without([before], "p1") == [];
    assert !Clashes([before], after, "slug");
    assert FirstClash([before], after, ["slug"]) == None;
    assert Without([before], "p1") + [after] == [after];
  }

  /** ...and re-saved once more, it goes back to "a": the slug alternates
      on every save although nothing about the record changed. */
  lemma ResaveDropsSuffix(norm: Normaliser)
    requires PopulatedField(Some(true), None).Ok?
    requires norm(PopulatedField(Some(true), None).value.normaliser, Some("A")) == "a"
    ensures Save(PopulatedSchema(PopulatedField(Some(true), None).value), OpenCollection([Stored("p1", "A", "a-1")]), norm, Resaved("p1", "a-1"), "p2")
         == Ok((OpenCollection([Stored("p1", "A", "a")]), Resaved("p1", "a")))
  {
    var f := PopulatedField(Some(true), None).value;
    var before := Stored("p1", "A", "a-1");
    var after := Stored("p1", "A", "a");
    var doc := Resaved("p1", "a-1");
    var coll := OpenCollection([before]);
    ViewOfOne(before, "slug");
    assert "a" != "a-1";
    PopulatedPreSave(f, coll, norm, doc);
    assert Lookup(doc.data, "name") == Some("A");
    assert doc.data["slug" := "a"] == after.fields;
    PopulatedUnique(f);
    assert Without([before], "p1") == [];
    assert !Clashes([before], after, "slug");
    assert FirstClash([before], after, ["slug"]) == None;
    assert Without([before], "p1") + [after] == [after];
  }

  // ---------------------------------------------------------------------
  // The hook with the document's own record left out of the search

  /** The records the collision search considers for `doc`: every record
      for a document without a key, every record but its own otherwise. */
  function Others(coll: Collection, doc: Document): (r: Collection)
    ensures r.managers == coll.managers
    ensures forall d :: d in r.docs <==> d in coll.docs && !(HasIdentity(doc) && d.pk == doc.pk.value)
  {
    if HasIdentity(doc) then coll.(docs := Without(coll.docs, doc.pk.value)) else coll
  }

  /** The pre-save hook, searching for collisions among the other records. */
  function CorrectedPreSave(schema: Schema, coll: Collection, norm: Normaliser, doc: Document): (r: Result<Document, Error>)
    ensures !HasIdentity(doc) ==> r == PreSave(schema, coll, norm, doc)
    ensures r.Ok? ==> r.value.pk == doc.pk
  {
    PreSave(schema, Others(coll, doc), norm, doc)
  }

  /** On a document the hook skips entirely, the corrected hook and the hook
      as written agree: both leave it unchanged. */
  lemma CorrectedAgreesWhenSkipped(schema: Schema, coll: Collection, norm: Normaliser, doc: Document)
    requires HasIdentity(doc)
    requires forall i | 0 <= i < |schema| && schema[i].1.SlugDecl? :: !schema[i].1.slug.alwaysUpdate
    ensures CorrectedPreSave(schema, coll, norm, doc) == PreSave(schema, coll, norm, doc) == Ok(doc)
  {
    HookProperties.PreSaveKeepsIdentified(schema, coll, norm, doc, 0);
    HookProperties.PreSaveKeepsIdentified(schema, Others(coll, doc), norm, doc, 0);
  }

  /** `Host.Save` with the corrected hook. */
  function CorrectedSave(schema: Schema, coll: Collection, norm: Normaliser, doc: Document, freshPk: string): (r: Result<(Collection, Document), Error>)
    ensures r.Ok? ==> CorrectedPreSave(schema, coll, norm, doc).Ok? && r.value.1.data == CorrectedPreSave(schema, coll, norm, doc).value.data
    ensures r.Ok? ==> r.value.1.pk == (if HasIdentity(doc) then doc.pk else Some(freshPk))
    ensures r.Ok? ==> StoredDoc(r.value.1.pk.value, r.value.1.data) in r.value.0.docs
  {
    var d :- CorrectedPreSave(schema, coll, norm, doc);
    var pk := if HasIdentity(d) then d.pk.value else freshPk;
    var c :- Persist(coll, StoredDoc(pk, d.data), UniqueFields(schema));
    Ok((c, d.(pk := Some(pk))))
  }

  /** The key a save gives `doc`. */
  function KeyAfterSave(doc: Document, freshPk: string): string {
    if HasIdentity(doc) then doc.pk.value else freshPk
  }

  /** The slug a forced save of `doc` computes, searching the other records. */
  function ForcedSlug(f: SlugField, coll: Collection, norm: Normaliser, doc: Document): string
    requires f.querysetManager in coll.managers
  {
    ResolveSlug(norm(f.normaliser, Lookup(doc.data, "name")), View(Others(coll, doc), f.querysetManager, "slug").value)
  }

  /** What a corrected forced save of a populated document does: it stores
      the document under its key with the slug computed against the other
      records, unless another record already holds that slug. */
  lemma CorrectedSaveShape(f: SlugField, coll: Collection, norm: Normaliser, doc: Document, freshPk: string)
    requires f.populateFrom == Some("name") && f.alwaysUpdate && f.unique
    requires f.querysetManager in coll.managers
    ensures var p := KeyAfterSave(doc, freshPk);
      var rec := StoredDoc(p, doc.data["slug" := ForcedSlug(f, coll, norm, doc)]);
      && (CorrectedSave(PopulatedSchema(f), coll, norm, doc, freshPk).Ok? <==> !Clashes(coll.docs, rec, "slug"))
      && (!Clashes(coll.docs, rec, "slug") ==>
            CorrectedSave(PopulatedSchema(f), coll, norm, doc, freshPk)
              == Ok((Collection(Without(coll.docs, p) + [rec], coll.managers), Document(Some(p), rec.fields))))
  {
    PopulatedPreSave(f, Others(coll, doc), norm, doc);
    PopulatedUnique(f);
  }

  /** After a document is written under key `p`, the records other than
      its own are the same as before. */
  lemma OthersAfterWrite(coll: Collection, rec: StoredDoc, p: string, before: Document, after: Document)
    requires after.pk == Some(p) && p != "" && rec.pk == p
    requires HasIdentity(before) ==> before.pk == Some(p)
    requires !HasIdentity(before) ==> forall i | 0 <= i < |coll.docs| :: coll.docs[i].pk != p
    ensures Others(Collection(Without(coll.docs, p) + [rec], coll.managers), after) == Others(coll, before)
  {
    WithoutAppend(Without(coll.docs, p), [rec], p);
    assert Without([rec], p) == [];
    assert Without(Without(coll.docs, p), p) == Without(coll.docs, p);
    assert Without(Without(coll.docs, p), p) + [] == Without(coll.docs, p);
  }

  /** A record that clashed with no other record still clashes with none
      once it has replaced its own earlier version. */
  lemma RewriteNoClash(docs: seq<StoredDoc>, rec: StoredDoc)
    requires !Clashes(docs, rec, "slug")
    ensures !Clashes(Without(docs, rec.pk) + [rec], rec, "slug")
  {

  }

  /** Saving again what a corrected save stored changes nothing: the slug a
      forced re-save computes is the one the document already has. */
  lemma CorrectedResaveStable(f: SlugField, coll: Collection, norm: Normaliser, doc: Document, freshPk: string)
    requires f.populateFrom == Some("name") && f.alwaysUpdate && f.unique
    requires f.querysetManager in coll.managers
    requires freshPk != "" && forall i | 0 <= i < |coll.docs| :: coll.docs[i].pk != freshPk
    requires CorrectedSave(PopulatedSchema(f), coll, norm, doc, freshPk).Ok?
    ensures var saved := CorrectedSave(PopulatedSchema(f), coll, norm, doc, freshPk).value;
      CorrectedSave(PopulatedSchema(f), saved.0, norm, saved.1, freshPk) == Ok(saved)
  {
    var p := KeyAfterSave(doc, freshPk);
    var s := ForcedSlug(f, coll, norm, doc);
    var rec := StoredDoc(p, doc.data["slug" := s]);
    CorrectedSaveShape(f, coll, norm, doc, freshPk);
    var c1 := Collection(Without(coll.docs, p) + [rec], coll.managers);
    var d1 := Document(Some(p), rec.fields);
    OthersAfterWrite(coll, rec, p, doc, d1);
    assert Lookup(d1.data, "name") == Lookup(doc.data, "name");
    assert ForcedSlug(f, c1, norm, d1) == s;
    assert d1.data["slug" := s] == d1.data;
    assert KeyAfterSave(d1, freshPk) == p;
    RewriteNoClash(coll.docs, rec);
    CorrectedSaveShape(f, c1, norm, d1, freshPk);
    WithoutAppend(Without(coll.docs, p), [rec], p);
    assert Without([rec], p) == [];
    assert Without(c1.docs, p) + [rec] == c1.docs;
  }

  /** The record of `ResaveAddsSuffix`, re-saved through the corrected
      hook, keeps its slug. */
  lemma CorrectedResaveKeepsSlug(norm: Normaliser)
    requires PopulatedField(Some(true), None).Ok?
    requires norm(PopulatedField(Some(true), None).value.normaliser, Some("A")) == "a"
    ensures CorrectedSave(PopulatedSchema(PopulatedField(Some(true), None).value), OpenCollection([Stored("p1", "A", "a")]), norm, Resaved("p1", "a"), "p2")
         == Ok((OpenCollection([Stored("p1", "A", "a")]), Resaved("p1", "a")))
  {
    var f := PopulatedField(Some(true), None).value;
    var rec := Stored("p1", "A", "a");
    var doc := Resaved("p1", "a");
    var coll := OpenCollection([rec]);
    assert Without([rec], "p1") == [];
    assert Others(coll, doc) == OpenCollection([]);
    assert ViewValues([], Everything, "slug") == {};
    PopulatedPreSave(f, OpenCollection([]), norm, doc);
    assert Lookup(doc.data, "name") == Some("A");
    assert doc.data["slug" := "a"] == rec.fields;
    PopulatedUnique(f);
    assert !Clashes([rec], rec, "slug");
    assert FirstClash([rec], rec, ["slug"]) == None;
    assert Without([rec], "p1") + [rec] == [rec];
  }

  /** tests/test_fields.py:115-127 through the corrected hook: the
      renamed document's own stored copy is left out of the search, and it
      gets the new name's slug just as with the hook as written. */
  lemma CorrectedFollowsName(norm: Normaliser)
    requires PopulatedField(Some(true), None).Ok?
    requires norm(PopulatedField(Some(true), None).value.normaliser, Some("I Can Haz New Slug")) == "i-can-haz-new-slug"
    ensures var f := PopulatedField(Some(true), None).value;
      var before := Stored("1", AutoTitle, AutoBase);
      var after := Stored("1", "I Can Haz New Slug", "i-can-haz-new-slug");
      CorrectedSave(PopulatedSchema(f), OpenCollection([before]), norm, Document(Some("1"), before.fields["name" := "I Can Haz New Slug"]), "2")
        == Ok((OpenCollection([after]), Document(Some("1"), after.fields)))
  {
    var f := PopulatedField(Some(true), None).value;
    var before := Stored("1", AutoTitle, AutoBase);
    var doc := Document(Some("1"), before.fields["name" := "I Can Haz New Slug"]);
    var after := Stored("1", "I Can Haz New Slug", "i-can-haz-new-slug");
    assert Without([before], "1") == [];
    assert Others(OpenCollection([before]), doc) == OpenCollection([]);
    assert ViewValues([], Everything, "slug") == {};
    PopulatedPreSave(f, OpenCollection([]), norm, doc);
    assert Lookup(doc.data, "name") == Some("I Can Haz New Slug");
    assert doc.data["slug" := "i-can-haz-new-slug"] == after.fields;
    PopulatedUnique(f);
    assert !Clashes([before], after, "slug");
    assert FirstClash([before], after, ["slug"]) == None;
    assert Without([before], "1") + [after] == [after];
  }
}
