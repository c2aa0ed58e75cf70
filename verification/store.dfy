/** The collection a document class is stored in, as the slug field sees
    it: stored records, the class's queryset managers (each a filtered view
    of the collection), the count query the resolver issues, and the unique
    index that guards a write. Database I/O itself is not modelled. */
module Store {
  import opened Wrappers
  import opened Errors

  /** A stored record: its primary key and its field values (a field with
      no value is absent from the map). */
  datatype StoredDoc = StoredDoc(pk: string, fields: map<string, string>)

  /** A queryset manager: which stored records its view contains. */
  type Filter = StoredDoc -> bool

  datatype Collection = Collection(docs: seq<StoredDoc>, managers: map<string, Filter>)

  /** Record `d` is in the view and its `field` equals `value`. */
  predicate Shows(d: StoredDoc, keep: Filter, field: string, value: string) {
    keep(d) && field in d.fields && d.fields[field] == value
  }

  /** `manager(**{field: value}).count()`. */
  function MatchCount(docs: seq<StoredDoc>, keep: Filter, field: string, value: string): nat
    decreases |docs|
  {
    if |docs| == 0 then 0
    else
      var last := docs[|docs| - 1];
      MatchCount(docs[..|docs| - 1], keep, field, value) + if Shows(last, keep, field, value) then 1 else 0
  }

  /** The values of `field` among the records of a view. */
  function ViewValues(docs: seq<StoredDoc>, keep: Filter, field: string): (vs: set<string>)
    ensures forall v :: v in vs <==> exists i | 0 <= i < |docs| :: Shows(docs[i], keep, field, v)
  {
    set i | 0 <= i < |docs| && keep(docs[i]) && field in docs[i].fields :: docs[i].fields[field]
  }

  /** The count query finds a match exactly when the value is in the view. */
  lemma {:induction false} MatchCountPositive(docs: seq<StoredDoc>, keep: Filter, field: string, value: string)
    ensures MatchCount(docs, keep, field, value) > 0 <==> value in ViewValues(docs, keep, field)
    decreases |docs|
  {
    if |docs| > 0 {
      var prefix := docs[..|docs| - 1];
      MatchCountPositive(prefix, keep, field, value);
      assert forall i | 0 <= i < |prefix| :: prefix[i] == docs[i];
      if Shows(docs[|docs| - 1], keep, field, value) {
        assert value in ViewValues(docs, keep, field);
      }
    }
  }

  /** The view a named manager gives of `field`, or `AttributeError` when
      the class has no such manager. */
  function View(coll: Collection, manager: string, field: string): (r: Result<set<string>, Error>)
    ensures manager !in coll.managers <==> r == Err(NoSuchManager(manager))
    ensures r.Ok? ==> forall v :: v in r.value <==>
      exists i | 0 <= i < |coll.docs| :: Shows(coll.docs[i], coll.managers[manager], field, v)
  {
    if manager in coll.managers then Ok(ViewValues(coll.docs, coll.managers[manager], field))
    else Err(NoSuchManager(manager))
  }

  /** Another record (one with a different key) already holds `rec`'s value
      of `field`. */
  predicate Clashes(docs: seq<StoredDoc>, rec: StoredDoc, field: string) {
    && field in rec.fields
    && exists i | 0 <= i < |docs| :: docs[i].pk != rec.pk && field in docs[i].fields && docs[i].fields[field] == rec.fields[field]
  }

  /** The first unique field, in declaration order, on which `rec` clashes. */
  function FirstClash(docs: seq<StoredDoc>, rec: StoredDoc, unique: seq<string>): (r: Option<string>)
    ensures r.None? <==> forall j | 0 <= j < |unique| :: !Clashes(docs, rec, unique[j])
    ensures r.Some? ==> r.value in unique && Clashes(docs, rec, r.value)
    decreases |unique|
  {
    if |unique| == 0 then None
    else if Clashes(docs, rec, unique[0]) then Some(unique[0])
    else
      var r := FirstClash(docs, rec, unique[1..]);
      assert forall j | 1 <= j < |unique| :: unique[j] == unique[1..][j - 1];
      r
  }

  /** The records other than the one keyed `pk`. */
  function Without(docs: seq<StoredDoc>, pk: string): (r: seq<StoredDoc>)
    ensures forall d :: d in r <==> d in docs && d.pk != pk
    ensures |r| <= |docs|
    ensures (forall i | 0 <= i < |docs| :: docs[i].pk != pk) ==> r == docs
    decreases |docs|
  {
    if |docs| == 0 then []
    else if docs[0].pk == pk then Without(docs[1..], pk)
    else [docs[0]] + Without(docs[1..], pk)
  }

  /** Dropping a key's records commutes with concatenation. */
  lemma {:induction false} WithoutAppend(a: seq<StoredDoc>, b: seq<StoredDoc>, pk: string)
    ensures Without(a + b, pk) == Without(a, pk) + Without(b, pk)
    decreases |a|
  {
    if |a| > 0 {
      assert (a + b)[1..] == a[1..] + b;
      WithoutAppend(a[1..], b, pk);
    } else {
      assert a + b == b;
    }
  }

  /** Writing a record: rejected when a unique field clashes with another
      record; otherwise the record replaces any earlier version of itself. */
  function Persist(coll: Collection, rec: StoredDoc, unique: seq<string>): (r: Result<Collection, Error>)
    ensures r.Err? <==> exists j | 0 <= j < |unique| :: Clashes(coll.docs, rec, unique[j])
    ensures r.Err? ==> r.error.NotUnique? && r.error.field in unique
    ensures r.Ok? ==> r.value.managers == coll.managers
    ensures r.Ok? ==> rec in r.value.docs
    ensures r.Ok? ==> forall d :: d in r.value.docs && d != rec ==> d in coll.docs && d.pk != rec.pk
    ensures r.Ok? ==> forall d :: d in coll.docs && d.pk != rec.pk ==> d in r.value.docs
  {
    match FirstClash(coll.docs, rec, unique)
    case Some(f) => Err(NotUnique(f))
    case None => Ok(Collection(Without(coll.docs, rec.pk) + [rec], coll.managers))
  }
}
