/** Properties of the pre-save hook: the decision rule, and that each slug
    field is computed on its own and writes only its own entry. */
module HookProperties {
  import opened Wrappers
  import opened Errors
  import opened Config
  import opened Store
  import opened Hook

  /** No slug field other than `i` is read as another slug field's source;
      a field reading its own value (`populate_from` unset) is allowed. */
  predicate SourcesIndependent(schema: Schema) {
    forall i, j | 0 <= i < |schema| && 0 <= j < |schema| && i != j && schema[i].1.SlugDecl? && schema[j].1.SlugDecl? ::
      SourceName(schema[i].1.slug, schema[i].0) != schema[j].0
  }

  /** `n` names one of the first `k` fields and that field is a slug field. */
  ghost predicate SlugAmong(schema: Schema, k: nat, n: string) {
    exists i | 0 <= i < k && i < |schema| :: schema[i].1.SlugDecl? && schema[i].0 == n
  }

  /** Field `i` is recomputed for `doc` and its slug cannot be computed. */
  ghost predicate FailsOn(schema: Schema, coll: Collection, norm: Normaliser, doc: Document, i: nat)
    requires i < |schema|
  {
    && schema[i].1.SlugDecl?
    && !Skips(doc, schema[i].1.slug)
    && SlugFor(schema, coll, norm, doc, schema[i].0, schema[i].1.slug).Err?
  }

  /** Field `i` of `d` holds what the hook promises, computed from the
      original document `orig`. */
  ghost predicate FieldDone(schema: Schema, coll: Collection, norm: Normaliser, orig: Document, d: Document, i: nat)
    requires i < |schema|
  {
    match schema[i].1
    case PlainField => true
    case SlugDecl(f) =>
      if Skips(orig, f) then Lookup(d.data, schema[i].0) == Lookup(orig.data, schema[i].0)
      else
        var s := SlugFor(schema, coll, norm, orig, schema[i].0, f);
        s.Ok? && Lookup(d.data, schema[i].0) == Some(s.value)
  }

  /** A document with a key, whose slug fields are not `always_update`,
      comes out of the hook unchanged, whatever its slug fields hold. */
  lemma {:induction false} PreSaveKeepsIdentified(schema: Schema, coll: Collection, norm: Normaliser, doc: Document, k: nat)
    requires k <= |schema|
    requires HasIdentity(doc)
    requires forall i | 0 <= i < |schema| && schema[i].1.SlugDecl? :: !schema[i].1.slug.alwaysUpdate
    ensures PreSaveFrom(schema, coll, norm, doc, k) == Ok(doc)
    decreases |schema| - k
  {
    if k < |schema| {
      PreSaveKeepsIdentified(schema, coll, norm, doc, k + 1);
    }
  }

  /** The step of the hook's loop at field `k`, under the invariant that
      `cur` differs from `orig` only in slug fields already processed. */
  lemma StepFieldwise(schema: Schema, coll: Collection, norm: Normaliser, orig: Document, cur: Document, k: nat)
    requires k < |schema|
    requires DistinctNames(schema) && SourcesIndependent(schema)
    requires cur.pk == orig.pk
    requires forall n :: !SlugAmong(schema, k, n) ==> Lookup(cur.data, n) == Lookup(orig.data, n)
    requires forall i | 0 <= i < k :: FieldDone(schema, coll, norm, orig, cur, i)
    ensures var r := ApplyField(schema, coll, norm, cur, schema[k].0, schema[k].1);
      && (r.Err? <==> FailsOn(schema, coll, norm, orig, k))
      && (r.Ok? ==>
        && r.value.pk == orig.pk
        && (forall n :: !SlugAmong(schema, k + 1, n) ==> Lookup(r.value.data, n) == Lookup(orig.data, n))
        && (forall i | 0 <= i < k + 1 :: FieldDone(schema, coll, norm, orig, r.value, i)))
  {
    var name := schema[k].0;
    var r := ApplyField(schema, coll, norm, cur, name, schema[k].1);
    assert !SlugAmong(schema, k, name);
    if r.Ok? {
      forall n | !SlugAmong(schema, k + 1, n)
        ensures Lookup(r.value.data, n) == Lookup(orig.data, n)
      {
        assert !SlugAmong(schema, k, n);
        if n == name {
          assert !schema[k].1.SlugDecl?;
        }
      }
      forall i | 0 <= i < k
        ensures FieldDone(schema, coll, norm, orig, r.value, i)
      {
        assert schema[i].0 != name;
        assert FieldDone(schema, coll, norm, orig, cur, i);
        assert Lookup(r.value.data, schema[i].0) == Lookup(cur.data, schema[i].0);
      }
    }
    match schema[k].1
    case PlainField =>
    case SlugDecl(f) =>
      if !Skips(cur, f) {
        var src := SourceName(f, name);
        assert !SlugAmong(schema, k, src);
        assert SlugFor(schema, coll, norm, cur, name, f) == SlugFor(schema, coll, norm, orig, name, f);
      }
  }

  /** The hook's loop from field `k` on, started from a document that has
      already processed fields `0..k` as the per-field rule says. */
  lemma {:induction false} PreSaveFromFieldwise(schema: Schema, coll: Collection, norm: Normaliser, orig: Document, cur: Document, k: nat)
    requires k <= |schema|
    requires DistinctNames(schema) && SourcesIndependent(schema)
    requires cur.pk == orig.pk
    requires forall n :: !SlugAmong(schema, k, n) ==> Lookup(cur.data, n) == Lookup(orig.data, n)
    requires forall i | 0 <= i < k :: FieldDone(schema, coll, norm, orig, cur, i)
    ensures var r := PreSaveFrom(schema, coll, norm, cur, k);
      && (r.Err? <==> exists i | k <= i < |schema| :: FailsOn(schema, coll, norm, orig, i))
      && (r.Ok? ==>
        && r.value.pk == orig.pk
        && (forall n :: !SlugAmong(schema, |schema|, n) ==> Lookup(r.value.data, n) == Lookup(orig.data, n))
        && (forall i | 0 <= i < |schema| :: FieldDone(schema, coll, norm, orig, r.value, i)))
    decreases |schema| - k
  {
    if k < |schema| {
      StepFieldwise(schema, coll, norm, orig, cur, k);
      var step := ApplyField(schema, coll, norm, cur, schema[k].0, schema[k].1);
      if step.Ok? {
        PreSaveFromFieldwise(schema, coll, norm, orig, step.value, k + 1);
        if exists i | k <= i < |schema| :: FailsOn(schema, coll, norm, orig, i) {
          var i :| k <= i < |schema| && FailsOn(schema, coll, norm, orig, i);
          assert i != k;
        }
      }
    }
  }

  /** Each slug field is resolved on its own, from the document as it was
      before the hook ran, provided no slug field takes another slug field
      as its source: the hook fails exactly when some recomputed field
      fails; otherwise a skipped slug field keeps its value, a recomputed
      one holds the slug resolved from its source, and every other entry
      and the key are unchanged. */
  lemma PreSaveFieldwise(schema: Schema, coll: Collection, norm: Normaliser, doc: Document)
    requires DistinctNames(schema) && SourcesIndependent(schema)
    ensures var r := PreSave(schema, coll, norm, doc);
      && (r.Err? <==> exists i | 0 <= i < |schema| :: FailsOn(schema, coll, norm, doc, i))
      && (r.Ok? ==> r.value.pk == doc.pk)
      && (r.Ok? ==> forall n :: !SlugAmong(schema, |schema|, n) ==> Lookup(r.value.data, n) == Lookup(doc.data, n))
      && (r.Ok? ==> forall i | 0 <= i < |schema| && schema[i].1.SlugDecl? && Skips(doc, schema[i].1.slug) ::
            Lookup(r.value.data, schema[i].0) == Lookup(doc.data, schema[i].0))
      && (r.Ok? ==> forall i | 0 <= i < |schema| && schema[i].1.SlugDecl? && !Skips(doc, schema[i].1.slug) ::
            && SlugFor(schema, coll, norm, doc, schema[i].0, schema[i].1.slug).Ok?
            && Lookup(r.value.data, schema[i].0) == Some(SlugFor(schema, coll, norm, doc, schema[i].0, schema[i].1.slug).value))
  {
    PreSaveFromFieldwise(schema, coll, norm, doc, doc, 0);
    var r := PreSave(schema, coll, norm, doc);
    if r.Ok? {
      forall i | 0 <= i < |schema| && schema[i].1.SlugDecl?
        ensures FieldDone(schema, coll, norm, doc, r.value, i)
      {
      }
    }
  }
}
