/** The part of the host's `Document.save` the slug field relies on: the
    pre-save hook runs, the record is written under the unique index of its
    slug fields, and a first save assigns a key. The key generator is a
    parameter. */
module Host {
  import opened Wrappers
  import opened Errors
  import opened Config
  import opened Store
  import opened Hook

  /** The names of the fields the store indexes as unique, in declaration
      order: every slug field, since a slug field is always unique. */
  function UniqueFields(schema: Schema): (names: seq<string>)
    ensures forall n :: n in names <==> exists i | 0 <= i < |schema| :: schema[i].1.SlugDecl? && schema[i].1.slug.unique && schema[i].0 == n
    decreases |schema|
  {
    if |schema| == 0 then []
    else
      var rest := UniqueFields(schema[1..]);
      assert forall i | 1 <= i < |schema| :: schema[i] == schema[1..][i - 1];
      (if schema[0].1.SlugDecl? && schema[0].1.slug.unique then [schema[0].0] else []) + rest
  }

  /** Saving `doc`: the collection afterwards and the saved document. */
  function Save(schema: Schema, coll: Collection, norm: Normaliser, doc: Document, freshPk: string): (r: Result<(Collection, Document), Error>)
    ensures PreSave(schema, coll, norm, doc).Err? ==> r == Err(PreSave(schema, coll, norm, doc).error)
    ensures r.Ok? ==> PreSave(schema, coll, norm, doc).Ok? && r.value.1.data == PreSave(schema, coll, norm, doc).value.data
    ensures r.Ok? ==> r.value.1.pk == (if HasIdentity(doc) then doc.pk else Some(freshPk))
    ensures r.Ok? ==> StoredDoc(r.value.1.pk.value, r.value.1.data) in r.value.0.docs
    ensures r.Err? && PreSave(schema, coll, norm, doc).Ok? ==> r.error.NotUnique?
  {
    var d :- PreSave(schema, coll, norm, doc);
    var pk := if HasIdentity(d) then d.pk.value else freshPk;
    var c :- Persist(coll, StoredDoc(pk, d.data), UniqueFields(schema));
    Ok((c, d.(pk := Some(pk))))
  }
}
