/** The relation join (`relations` of the Firestore repository service): for
    each declared relation, one batched OR lookup in the related collection,
    then each parent record gets the matches attached under the relation's
    label, in place. */
module RelationJoin {
  import opened JsValues
  import opened Query
  import Filters

  /** A relation declaration; `justOne` is declared but never read. */
  datatype Relation = Relation(
    collection: string,
    collectionLabel: string,
    localField: string,
    foreignField: string,
    justOne: Option<bool>)

  const RelationsErrorMessage := "Error on relations."

  /** The OR filter one parent contributes: `{foreignField: {$in: local}}`
      for an array, `{foreignField: local}` otherwise; none when the local
      field is falsy. */
  function ParentFilter(entity: Entries, relation: Relation): (r: Option<Entries>)
    ensures r.None? <==> !Truthy(Get(entity, relation.localField))
    ensures r.Some? ==> Keys(r.value) == [relation.foreignField]
  {
    var local := Get(entity, relation.localField);
    if !Truthy(local) then None
    else if local.Arr? then Some([Field(relation.foreignField, Obj([Field("$in", local)]))])
    else Some([Field(relation.foreignField, local)])
  }

  /** The parents whose local field is truthy, in order. */
  function Linked(parents: seq<Entries>, relation: Relation): (r: seq<Entries>)
    ensures |r| <= |parents|
    ensures forall e :: e in r <==> e in parents && Truthy(Get(e, relation.localField))
  {
    if parents == [] then []
    else if Truthy(Get(parents[0], relation.localField)) then [parents[0]] + Linked(parents[1..], relation)
    else Linked(parents[1..], relation)
  }

  /** `parentData.map(...).filter(e => !!e)`: the OR filters of the lookup. */
  function RelationFilters(parents: seq<Entries>, relation: Relation): (r: seq<Entries>)
    ensures |r| <= |parents|
  {
    if parents == [] then []
    else match ParentFilter(parents[0], relation)
      case None => RelationFilters(parents[1..], relation)
      case Some(f) => [f] + RelationFilters(parents[1..], relation)
  }

  /** One filter per parent with a truthy local field, in parent order. */
  lemma {:induction false} RelationFiltersMeaning(parents: seq<Entries>, relation: Relation)
    ensures |RelationFilters(parents, relation)| == |Linked(parents, relation)|
    ensures forall i :: 0 <= i < |Linked(parents, relation)| ==>
      Some(RelationFilters(parents, relation)[i]) == ParentFilter(Linked(parents, relation)[i], relation)
  {
    if parents != [] {
      RelationFiltersMeaning(parents[1..], relation);
    }
  }

  /** Each parent filter becomes exactly one store predicate on the foreign
      field: `in` for an array local field, `==` for a scalar one. */
  lemma ParentFilterTranslates(entity: Entries, relation: Relation)
    requires Truthy(Get(entity, relation.localField)) && !Get(entity, relation.localField).Obj?
    ensures var local := Get(entity, relation.localField);
      ToWhere(ParentFilter(entity, relation).value)
        == Success([Predicate(relation.foreignField, Some(if local.Arr? then "in" else "=="), local)])
  {
    var local := Get(entity, relation.localField);
    var f := ParentFilter(entity, relation).value;
    var op := if local.Arr? then "in" else "==";
    assert |f| == 1 && ToWhere(f[1..]) == Success([]);
    assert Emits(f[0].val);
    if local.Arr? {
      assert Filters.LookupOp("$in") == Some("in");
    }
    var pred := Predicate(relation.foreignField, Some(op), local);
    assert FieldPredicate(f[0]) == Success(pred);
    assert ToWhere(f) == Success([pred] + []);
    assert [pred] + [] == [pred];
    assert ToWhere(ParentFilter(entity, relation).value) == Success([pred]);
  }

  /** With no object-valued local field, the lookup's OR group has one
      defined branch per linked parent, in parent order. */
  lemma RelationLookupBranches(parents: seq<Entries>, relation: Relation)
    requires forall e :: e in parents ==> !Get(e, relation.localField).Obj?
    ensures ToOrWhere(RelationFilters(parents, relation)).Success?
    ensures |ToOrWhere(RelationFilters(parents, relation)).value| == |Linked(parents, relation)|
    ensures forall i :: 0 <= i < |Linked(parents, relation)| ==>
      var local := Get(Linked(parents, relation)[i], relation.localField);
      ToOrWhere(RelationFilters(parents, relation)).value[i]
        == Some(Predicate(relation.foreignField, Some(if local.Arr? then "in" else "=="), local))
  {
    var linked := Linked(parents, relation);
    var filters := RelationFilters(parents, relation);
    RelationFiltersMeaning(parents, relation);
    ToOrWhereMeaning(filters);
    forall i | 0 <= i < |linked|
      ensures var local := Get(linked[i], relation.localField);
        ToWhere(filters[i]) == Success([Predicate(relation.foreignField, Some(if local.Arr? then "in" else "=="), local)])
    {
      assert linked[i] in linked;
      ParentFilterTranslates(linked[i], relation);
    }
  }

  // ---------------------------------------------------------------------
  // Attachment

  /** What a parent gets under the label: for an array local field, the
      first match of each element, position by position; otherwise the
      first match of the value (`resultData.find(r => r[foreignField] === v)`). */
  function Matches(local: Value, results: seq<Entries>, foreignField: string): (r: Value)
    ensures local.Arr? ==> r.Arr? && |r.items| == |local.items|
    ensures local.Arr? ==> forall i :: 0 <= i < |local.items| ==>
      IsFirstMatch(results, foreignField, local.items[i], r.items[i])
    ensures !local.Arr? ==> IsFirstMatch(results, foreignField, local, r)
  {
    if local.Arr? then
      Arr(seq(|local.items|, i requires 0 <= i < |local.items| => FindWhere(results, foreignField, local.items[i])))
    else
      FindWhere(results, foreignField, local)
  }

  /** `entity[collectionLabel] = ...` for one parent. */
  function AttachRelation(entity: Entries, relation: Relation, results: seq<Entries>): Entries {
    Put(entity, relation.collectionLabel, Matches(Get(entity, relation.localField), results, relation.foreignField))
  }

  /** The label reads the matches; every other field is untouched. */
  lemma AttachRelationReads(entity: Entries, relation: Relation, results: seq<Entries>, k: string)
    ensures Get(AttachRelation(entity, relation, results), k)
      == if k == relation.collectionLabel
         then Matches(Get(entity, relation.localField), results, relation.foreignField)
         else Get(entity, k)
  {
    GetPut(entity, relation.collectionLabel, Matches(Get(entity, relation.localField), results, relation.foreignField), k);
  }

  /** Every parent, in order, gets the label written on it. */
  function AttachAll(parents: seq<Entries>, relation: Relation, results: seq<Entries>): (r: seq<Entries>)
    ensures |r| == |parents|
    ensures forall i :: 0 <= i < |parents| ==> r[i] == AttachRelation(parents[i], relation, results)
    ensures forall i, k :: 0 <= i < |parents| ==>
      Get(r[i], k) == if k == relation.collectionLabel
                      then Matches(Get(parents[i], relation.localField), results, relation.foreignField)
                      else Get(parents[i], k)
  {
    var r := seq(|parents|, i requires 0 <= i < |parents| => AttachRelation(parents[i], relation, results));
    forall i, k | 0 <= i < |parents|
      ensures Get(r[i], k) == if k == relation.collectionLabel
                              then Matches(Get(parents[i], relation.localField), results, relation.foreignField)
                              else Get(parents[i], k)
    {
      AttachRelationReads(parents[i], relation, results, k);
    }
    r
  }

  /** The parents after some relations, and whether every lookup succeeded. */
  datatype Outcome = Outcome(records: seq<Entries>, ok: bool)

  /** `parentData.map(entity => { entity[collectionLabel] = ...; return entity; })`,
      one parent at a time, in place. */
  method AttachToEach(parentData: array<Entries>, relation: Relation, resultData: seq<Entries>)
    modifies parentData
    ensures parentData[..] == AttachAll(old(parentData[..]), relation, resultData)
  {
    for i := 0 to parentData.Length
      invariant forall j :: 0 <= j < i ==> parentData[j] == AttachRelation(old(parentData[j]), relation, resultData)
      invariant forall j :: i <= j < parentData.Length ==> parentData[j] == old(parentData[j])
    {
      parentData[i] := AttachRelation(parentData[i], relation, resultData);
    }
  }

  /** The relations applied one after the other; a failed lookup stops the
      sequence, leaving the parents as the earlier relations left them. */
  function ResolveRelations(parents: seq<Entries>, relations: seq<Relation>, store: Store): (r: Outcome)
    ensures |r.records| == |parents|
    decreases |relations|
  {
    if relations == [] then Outcome(parents, true)
    else
      var relation := relations[0];
      match GetRecords(relation.collection, QueryOptions(None, Some(RelationFilters(parents, relation)), None), store)
      case Failure(_) => Outcome(parents, false)
      case Success(results) => ResolveRelations(AttachAll(parents, relation, results), relations[1..], store)
  }

  /** `relations(parentData, relations)`: updates the parent records in
      place; any failure is reported as "Error on relations.". */
  method Relations(parentData: array<Entries>, relations: seq<Relation>, store: Store) returns (r: Result<()>)
    modifies parentData
    ensures parentData[..] == ResolveRelations(old(parentData[..]), relations, store).records
    ensures r.Success? <==> ResolveRelations(old(parentData[..]), relations, store).ok
    ensures r.Failure? ==> r == Failure(InternalServerError(RelationsErrorMessage))
  {
    assert relations[0..] == relations;
    for k := 0 to |relations|
      invariant ResolveRelations(parentData[..], relations[k..], store) == ResolveRelations(old(parentData[..]), relations, store)
    {
      var relation := relations[k];
      assert relations[k..][0] == relation && relations[k..][1..] == relations[k + 1..];
      var filters := RelationFilters(parentData[..], relation);
      var resultData := GetRecords(relation.collection, QueryOptions(None, Some(filters), None), store);
      if resultData.Failure? {
        return Failure(InternalServerError(RelationsErrorMessage));
      }
      AttachToEach(parentData, relation, resultData.value);
    }
    assert relations[|relations|..] == [];
    return Success(());
  }

  /** The join keeps every parent, and only the relations' labels change. */
  lemma {:induction false} ResolveRelationsKeepsOtherFields(parents: seq<Entries>, relations: seq<Relation>, store: Store, k: string)
    requires forall rel :: rel in relations ==> rel.collectionLabel != k
    ensures |ResolveRelations(parents, relations, store).records| == |parents|
    ensures forall i :: 0 <= i < |parents| ==> Get(ResolveRelations(parents, relations, store).records[i], k) == Get(parents[i], k)
    decreases |relations|
  {
    if relations != [] {
      var relation := relations[0];
      match GetRecords(relation.collection, QueryOptions(None, Some(RelationFilters(parents, relation)), None), store)
      case Failure(_) =>
      case Success(results) =>
        var next := AttachAll(parents, relation, results);
        assert relation in relations;
        forall i | 0 <= i < |parents| ensures Get(next[i], k) == Get(parents[i], k) {
          AttachRelationReads(parents[i], relation, results, k);
        }
        assert forall rel :: rel in relations[1..] ==> rel in relations;
        ResolveRelationsKeepsOtherFields(next, relations[1..], store, k);
    }
  }

  /** The join never reads `justOne`: plurality follows the local field. */
  lemma JustOneIgnored(parents: seq<Entries>, relation: Relation, results: seq<Entries>, justOne: Option<bool>)
    ensures AttachAll(parents, relation.(justOne := justOne), results) == AttachAll(parents, relation, results)
    ensures RelationFilters(parents, relation.(justOne := justOne)) == RelationFilters(parents, relation)
  {
    assert forall e :: ParentFilter(e, relation.(justOne := justOne)) == ParentFilter(e, relation);
    RelationFiltersIgnoreJustOne(parents, relation, justOne);
  }

  lemma {:induction false} RelationFiltersIgnoreJustOne(parents: seq<Entries>, relation: Relation, justOne: Option<bool>)
    ensures RelationFilters(parents, relation.(justOne := justOne)) == RelationFilters(parents, relation)
  {
    if parents != [] {
      RelationFiltersIgnoreJustOne(parents[1..], relation, justOne);
    }
  }

  /** Two tag ids are matched, in order, to the two tags carrying them. */
  lemma TwoTagsMatch(t1: Entries, t2: Entries)
    requires t1 == [Field("id", Str("t1")), Field("name", Str("A"))]
    requires t2 == [Field("id", Str("t2")), Field("name", Str("B"))]
    ensures Matches(Arr([Str("t1"), Str("t2")]), [t1, t2], "id") == Arr([Obj(t1), Obj(t2)])
  {
    assert FindWhere([t1, t2], "id", Str("t1")) == Obj(t1);
    assert FindWhere([t1, t2], "id", Str("t2")) == Obj(t2) by {
      assert [t1, t2][1..] == [t2];
    }
  }

  /** A parent `{id: "p1", tagIds: ["t1", "t2"]}` joined on `tagIds` -> `id`
      with the tags `t1` and `t2` gets `tags: [t1, t2]`. */
  lemma TagsExample()
    ensures
      var t1 := [Field("id", Str("t1")), Field("name", Str("A"))];
      var t2 := [Field("id", Str("t2")), Field("name", Str("B"))];
      var parent := [Field("id", Str("p1")), Field("tagIds", Arr([Str("t1"), Str("t2")]))];
      var relation := Relation("tags", "tags", "tagIds", "id", None);
      AttachRelation(parent, relation, [t1, t2])
        == parent + [Field("tags", Arr([Obj(t1), Obj(t2)]))]
  {
    var t1 := [Field("id", Str("t1")), Field("name", Str("A"))];
    var t2 := [Field("id", Str("t2")), Field("name", Str("B"))];
    var parent := [Field("id", Str("p1")), Field("tagIds", Arr([Str("t1"), Str("t2")]))];
    assert Get(parent, "tagIds") == Arr([Str("t1"), Str("t2")]);
    TwoTagsMatch(t1, t2);
    var m := Arr([Obj(t1), Obj(t2)]);
    assert Put(parent[1..], "tags", m) == [parent[1], Field("tags", m)] by {
      assert parent[1..][1..] == [];
    }
  }
}
