/** Reference resolution (`with` of the Firestore repository service): the
    ids found under a (possibly dotted) field of each parent are fetched by
    id in one batch, and each parent gets the fetched records attached under
    the reference's label, mirroring the shape of the field; a nested
    reference is then resolved against the attached records. */
module References {
  import opened JsValues
  import opened Query
  import opened Paths
  import opened RelationJoin

  /** The collection of a reference: still a path string, or a collection handle. */
  datatype CollectionSpec = Unresolved(path: string) | Handle(path: string)

  /** A reference declaration (`WithReference`). */
  datatype WithReference = WithReference(
    collection: CollectionSpec,
    collectionLabel: Option<string>,
    field: string,
    nested: Option<WithReference>)

  /** A fetched document: its id, and its fields when it exists. */
  datatype Snapshot = Snapshot(id: string, data: Option<Entries>)

  /** `db.getAll(...refs)` for the documents with the given ids in one
      collection. A failure it reports is a `StoreError`; it reaches the caller
      unchanged. */
  type GetAll = (string, seq<Value>) -> Result<seq<Snapshot>>

  /** `doc[refData.collectionLabel]`: an absent label is the key "undefined". */
  function Label(ref: WithReference): string {
    if ref.collectionLabel.Some? then ref.collectionLabel.value else "undefined"
  }

  /** `{id: shot.id, ...shot.data()}`; a missing document spreads nothing. */
  function ShotRecord(s: Snapshot): Entries {
    Serialize(Doc(s.id, if s.data.Some? then s.data.value else []))
  }

  function ShotRecords(snaps: seq<Snapshot>): (r: seq<Entries>)
    ensures |r| == |snaps| && forall i :: 0 <= i < |snaps| ==> r[i] == ShotRecord(snaps[i])
  {
    seq(|snaps|, i requires 0 <= i < |snaps| => ShotRecord(snaps[i]))
  }

  /** A fetched record answers to its document id unless its data holds its
      own `id`; a missing document yields the bare record `{id}`. */
  lemma ShotRecordId(s: Snapshot)
    requires s.data.Some? ==> DistinctKeys(s.data.value) && !Has(s.data.value, "id")
    ensures Get(ShotRecord(s), "id") == Str(s.id)
    ensures s.data.None? ==> ShotRecord(s) == [Field("id", Str(s.id))]
  {
    SerializeReads(Doc(s.id, if s.data.Some? then s.data.value else []), "id");
  }

  // ---------------------------------------------------------------------
  // getObjectByPath

  /** The walk of `getObjectByPath` from `current` along `parts`: undefined
      as soon as a step reads undefined; reading a property of null is a
      TypeError. */
  function ResolvePath(current: Value, parts: seq<string>): Result<Value>
    decreases |parts|
  {
    if parts == [] then Success(current)
    else
      var next :- PropertyOf(current, parts[0]);
      if next == Undefined then Success(Undefined) else ResolvePath(next, parts[1..])
  }

  /** `getObjectByPath(obj, path)` with `path.split(".")`. */
  function PathLookup(obj: Entries, path: string): Result<Value> {
    ResolvePath(Obj(obj), Split(path, '.'))
  }

  method GetObjectByPath(obj: Entries, path: string) returns (r: Result<Value>)
    ensures r == PathLookup(obj, path)
  {
    var parts := Split(path, '.');
    var current := Obj(obj);
    assert parts[0..] == parts;
    for i := 0 to |parts|
      invariant ResolvePath(current, parts[i..]) == PathLookup(obj, path)
    {
      assert parts[i..][0] == parts[i] && parts[i..][1..] == parts[i + 1..];
      var next := PropertyOf(current, parts[i]);
      if next.Failure? {
        return Failure(next.error);
      }
      if next.value == Undefined {
        return Success(Undefined);
      }
      current := next.value;
    }
    assert parts[|parts|..] == [];
    return Success(current);
  }

  /** Walking `a + b` is walking `a`, then `b` from where it ended, unless
      the walk of `a` already failed or stopped at undefined. */
  lemma {:induction false} ResolvePathAppend(v: Value, a: seq<string>, b: seq<string>)
    requires a != []
    decreases |a|
    ensures ResolvePath(v, a + b) ==
      match ResolvePath(v, a)
      case Failure(e) => Failure(e)
      case Success(w) => if w == Undefined then Success(Undefined) else ResolvePath(w, b)
  {
    assert (a + b)[0] == a[0] && (a + b)[1..] == a[1..] + b;
    var next := PropertyOf(v, a[0]);
    if next.Success? && next.value != Undefined && |a| > 1 {
      ResolvePathAppend(next.value, a[1..], b);
    }
  }

  /** A path without dots reads one field; a dotted path reads the nested
      field, is undefined when a step is missing, and fails on null. */
  lemma PathLookupSteps(obj: Entries, a: string, b: string)
    requires forall i :: 0 <= i < |a| ==> a[i] != '.'
    requires forall i :: 0 <= i < |b| ==> b[i] != '.'
    ensures PathLookup(obj, a) == Success(Get(obj, a))
    ensures Get(obj, a) == Undefined ==> PathLookup(obj, a + "." + b) == Success(Undefined)
    ensures Get(obj, a) == Null ==> PathLookup(obj, a + "." + b) == Failure(TypeError)
    ensures Get(obj, a).Obj? ==> PathLookup(obj, a + "." + b) == Success(Get(Get(obj, a).fields, b))
  {
    SplitNoSeparator(a, '.');
    SplitNoSeparator(b, '.');
    assert a + "." + b == a + ['.'] + b;
    SplitConcat(a, b, '.');
    assert Split(a + "." + b, '.') == [a] + [b];
    ResolvePathAppend(Obj(obj), [a], [b]);
    assert [b][1..] == [];
  }

  // ---------------------------------------------------------------------
  // Collecting ids

  /** The ids one parent contributes: none for a falsy value, every element
      of an array, the value itself otherwise. */
  function IdsFrom(docId: Value): (r: seq<Value>)
    ensures !Truthy(docId) ==> r == []
    ensures docId.Arr? ==> r == docId.items
    ensures Truthy(docId) && !docId.Arr? ==> r == [docId]
  {
    if !Truthy(docId) then [] else if docId.Arr? then docId.items else [docId]
  }

  /** The ids of a reference, parent by parent, arrays flattened. */
  function IdsOf(parents: seq<Entries>, field: string): Result<seq<Value>>
  {
    if parents == [] then Success([])
    else
      var docId :- PathLookup(parents[0], field);
      var rest :- IdsOf(parents[1..], field);
      Success(IdsFrom(docId) + rest)
  }

  /** The ids of two runs of parents are the ids of the first run followed
      by those of the second; the first failing lookup decides the error. */
  lemma {:induction false} IdsOfAppend(a: seq<Entries>, b: seq<Entries>, field: string)
    ensures IdsOf(a + b, field) ==
      match IdsOf(a, field)
      case Failure(e) => Failure(e)
      case Success(x) => (match IdsOf(b, field) case Failure(e) => Failure(e) case Success(y) => Success(x + y))
  {
    if a == [] {
      assert a + b == b;
      if IdsOf(b, field).Success? {
        assert [] + IdsOf(b, field).value == IdsOf(b, field).value;
      }
    } else {
      assert (a + b)[0] == a[0] && (a + b)[1..] == a[1..] + b;
      IdsOfAppend(a[1..], b, field);
      var head := PathLookup(a[0], field);
      if head.Success? && IdsOf(a[1..], field).Success? && IdsOf(b, field).Success? {
        var x := IdsFrom(head.value);
        var y := IdsOf(a[1..], field).value;
        var z := IdsOf(b, field).value;
        assert IdsOf(a[1..] + b, field) == Success(y + z);
        assert IdsOf(a + b, field) == Success(x + (y + z));
        assert IdsOf(a, field) == Success(x + y);
        assert x + (y + z) == (x + y) + z;
      }
    }
  }

  /** Every failure of the id collection is a TypeError (a step through null). */
  lemma {:induction false} IdsOfFailsWithTypeError(parents: seq<Entries>, field: string)
    ensures IdsOf(parents, field).Failure? ==> IdsOf(parents, field).error == TypeError
  {
    if parents != [] {
      IdsOfFailsWithTypeError(parents[1..], field);
      ResolvePathFailsWithTypeError(Obj(parents[0]), Split(field, '.'));
    }
  }

  lemma {:induction false} ResolvePathFailsWithTypeError(v: Value, parts: seq<string>)
    decreases |parts|
    ensures ResolvePath(v, parts).Failure? ==> ResolvePath(v, parts).error == TypeError
  {
    if parts != [] {
      var next := PropertyOf(v, parts[0]);
      if next.Success? && next.value != Undefined {
        ResolvePathFailsWithTypeError(next.value, parts[1..]);
      }
    }
  }

  /** The `parentData.forEach` push loop. */
  method CollectDocIds(parents: seq<Entries>, field: string) returns (r: Result<seq<Value>>)
    ensures r == IdsOf(parents, field)
  {
    var docRefs: seq<Value> := [];
    assert parents[..0] == [];
    for i := 0 to |parents|
      invariant IdsOf(parents[..i], field) == Success(docRefs)
    {
      var docId := GetObjectByPath(parents[i], field);
      assert parents[..i + 1] == parents[..i] + [parents[i]];
      assert [parents[i]][1..] == [];
      IdsOfAppend(parents[..i], [parents[i]], field);
      if docId.Failure? {
        IdsOfAppend(parents[..i + 1], parents[i + 1..], field);
        assert parents[..i + 1] + parents[i + 1..] == parents;
        return Failure(docId.error);
      }
      assert IdsOf([parents[i]], field) == Success(IdsFrom(docId.value) + []);
      assert IdsFrom(docId.value) + [] == IdsFrom(docId.value);
      if Truthy(docId.value) {
        if docId.value.Arr? {
          docRefs := docRefs + docId.value.items;
        } else {
          docRefs := docRefs + [docId.value];
        }
      } else {
        assert docRefs + [] == docRefs;
      }
    }
    assert parents[..|parents|] == parents;
    return Success(docRefs);
  }

  // ---------------------------------------------------------------------
  // Attaching (getAllData)

  /** The collection a nested reference fetches from: only a handle works
      there, a path string has no `doc` method. */
  function NestedTarget(c: CollectionSpec): Option<string> {
    if c.Handle? then Some(c.path) else None
  }

  /** One parent's part of `getAllData`: the fetched records mirroring the
      shape of `doc[field]` (read as a plain key, not as a dotted path),
      with the nested reference, if any, resolved inside them. */
  function AttachReference(doc: Entries, ref: WithReference, shots: seq<Entries>, getAll: GetAll): Entries
    decreases ref, 0
  {
    var attached := Matches(Get(doc, ref.field), shots, "id");
    Put(doc, Label(ref), if ref.nested.Some? then ResolveNested(attached, ref.nested.value, getAll) else attached)
  }

  /** The attached records that carry an id for the nested reference. */
  predicate HasNestedId(c: Value, inner: WithReference) {
    c.Obj? && Truthy(Get(c.fields, inner.field))
  }

  /** The attached records the nested lookup looks into: every position of
      an array, or the single record when it is truthy. */
  function NestedCandidates(attached: Value): seq<Value> {
    if attached.Arr? then attached.items else if Truthy(attached) then [attached] else []
  }

  /** The nested ids, one per attached record that has one, in order. */
  function NestedIds(candidates: seq<Value>, inner: WithReference): (r: seq<Value>)
    ensures |r| <= |candidates|
    ensures r == [] <==> forall i :: 0 <= i < |candidates| ==> !HasNestedId(candidates[i], inner)
  {
    if candidates == [] then []
    else
      var rest := NestedIds(candidates[1..], inner);
      assert forall i :: 1 <= i < |candidates| ==> candidates[1..][i - 1] == candidates[i];
      if HasNestedId(candidates[0], inner) then [Get(candidates[0].fields, inner.field)] + rest else rest
  }

  /** The nested ids are collected record by record, in order: a record
      with a nested id contributes exactly that id, any other nothing. */
  lemma {:induction false} NestedIdsAppend(a: seq<Value>, b: seq<Value>, inner: WithReference)
    ensures NestedIds(a + b, inner) == NestedIds(a, inner) + NestedIds(b, inner)
    ensures |a| == 1 ==>
      NestedIds(a, inner) == if HasNestedId(a[0], inner) then [Get(a[0].fields, inner.field)] else []
    decreases |a|
  {
    if a != [] {
      assert (a + b)[0] == a[0] && (a + b)[1..] == a[1..] + b;
      NestedIdsAppend(a[1..], b, inner);
      var head := if HasNestedId(a[0], inner) then [Get(a[0].fields, inner.field)] else [];
      assert NestedIds(a + b, inner) == head + NestedIds(a[1..] + b, inner);
      assert NestedIds(a, inner) == head + NestedIds(a[1..], inner);
    } else {
      assert a + b == b;
    }
    if |a| == 1 {
      assert a[1..] == [];
    }
  }

  /** The records one parent got, after the nested reference: each record
      with a nested id has the nested records attached. The nested lookup
      is left undone (and the records untouched) when an attached position
      is undefined, when no record has a nested id, when the nested
      collection is a path string, or when the fetch fails. */
  function ResolveNested(attached: Value, inner: WithReference, getAll: GetAll): Value
    decreases inner, 1
  {
    var candidates := NestedCandidates(attached);
    var ids := NestedIds(candidates, inner);
    if Undefined in candidates || ids == [] || NestedTarget(inner.collection).None? then attached
    else match getAll(NestedTarget(inner.collection).value, ids)
      case Failure(_) => attached
      case Success(snaps) =>
        var shots := ShotRecords(snaps);
        var resolved := seq(|candidates|, i requires 0 <= i < |candidates| =>
          if HasNestedId(candidates[i], inner)
          then Obj(AttachReference(candidates[i].fields, inner, shots, getAll))
          else candidates[i]);
        if attached.Arr? then Arr(resolved) else resolved[0]
  }

  /** Only the label changes, and without a nested reference it holds the
      records matched position by position against `doc[field]`. */
  lemma AttachReferenceReads(doc: Entries, ref: WithReference, shots: seq<Entries>, getAll: GetAll, k: string)
    ensures k != Label(ref) ==> Get(AttachReference(doc, ref, shots, getAll), k) == Get(doc, k)
    ensures ref.nested.None? ==> Get(AttachReference(doc, ref, shots, getAll), Label(ref)) == Matches(Get(doc, ref.field), shots, "id")
    ensures ref.nested.Some? ==>
      Get(AttachReference(doc, ref, shots, getAll), Label(ref))
        == ResolveNested(Matches(Get(doc, ref.field), shots, "id"), ref.nested.value, getAll)
  {
    var attached := Matches(Get(doc, ref.field), shots, "id");
    var v := if ref.nested.Some? then ResolveNested(attached, ref.nested.value, getAll) else attached;
    GetPut(doc, Label(ref), v, k);
    GetPut(doc, Label(ref), v, Label(ref));
  }

  /** A nested reference whose collection is still a path string is never
      resolved: the attached records stay as fetched. */
  lemma NestedPathStringIgnored(attached: Value, inner: WithReference, getAll: GetAll)
    requires inner.collection.Unresolved?
    ensures ResolveNested(attached, inner, getAll) == attached
  {
  }

  /** When the nested lookup runs, it fetches exactly the nested ids from
      the nested collection, and each attached record with a nested id gets
      the nested reference attached to it in turn; every other record is
      left as it was. */
  lemma ResolveNestedAttaches(attached: Value, inner: WithReference, getAll: GetAll, snaps: seq<Snapshot>)
    requires Undefined !in NestedCandidates(attached)
    requires NestedIds(NestedCandidates(attached), inner) != []
    requires inner.collection.Handle?
    requires getAll(inner.collection.path, NestedIds(NestedCandidates(attached), inner)) == Success(snaps)
    ensures attached.Arr? ==>
      var r := ResolveNested(attached, inner, getAll);
      && r.Arr? && |r.items| == |attached.items|
      && forall i :: 0 <= i < |attached.items| ==>
           r.items[i] == if HasNestedId(attached.items[i], inner)
                         then Obj(AttachReference(attached.items[i].fields, inner, ShotRecords(snaps), getAll))
                         else attached.items[i]
    ensures !attached.Arr? ==>
      && HasNestedId(attached, inner)
      && ResolveNested(attached, inner, getAll) == Obj(AttachReference(attached.fields, inner, ShotRecords(snaps), getAll))
  {
    if !attached.Arr? {
      assert NestedCandidates(attached) == [attached];
      assert NestedIds([attached], inner) != [];
      assert NestedIds([attached][1..], inner) == [] by { assert [attached][1..] == []; }
    }
  }

  /** With a nested reference and no deeper nesting, a record with a nested
      id gets, under the nested label, the first fetched record whose id
      matches its nested field (position by position for an array field). */
  lemma ResolveNestedOneLevel(attached: Value, inner: WithReference, getAll: GetAll, snaps: seq<Snapshot>, i: int)
    requires attached.Arr? && 0 <= i < |attached.items| && HasNestedId(attached.items[i], inner)
    requires Undefined !in attached.items
    requires inner.collection.Handle? && inner.nested.None?
    requires getAll(inner.collection.path, NestedIds(attached.items, inner)) == Success(snaps)
    ensures ResolveNested(attached, inner, getAll).items[i].Obj?
    ensures Get(ResolveNested(attached, inner, getAll).items[i].fields, Label(inner))
      == Matches(Get(attached.items[i].fields, inner.field), ShotRecords(snaps), "id")
  {
    NestedIdsNonEmpty(attached.items, inner, i);
    ResolveNestedAttaches(attached, inner, getAll, snaps);
    AttachReferenceReads(attached.items[i].fields, inner, ShotRecords(snaps), getAll, Label(inner));
  }

  lemma NestedIdsNonEmpty(candidates: seq<Value>, inner: WithReference, i: int)
    requires 0 <= i < |candidates| && HasNestedId(candidates[i], inner)
    ensures NestedIds(candidates, inner) != []
  {
  }

  /** The nested lookup is left undone, and the attached value kept, when an
      attached position is undefined, when no record has a nested id, when
      the nested collection is a path string, or when the fetch fails. */
  lemma ResolveNestedUndone(attached: Value, inner: WithReference, getAll: GetAll)
    requires
      || Undefined in NestedCandidates(attached)
      || NestedIds(NestedCandidates(attached), inner) == []
      || inner.collection.Unresolved?
      || getAll(inner.collection.path, NestedIds(NestedCandidates(attached), inner)).Failure?
    ensures ResolveNested(attached, inner, getAll) == attached
  {
  }

  /** A nested reference keeps the shape of what was attached: an array
      stays an array of the same length, and undefined positions stay
      undefined. */
  lemma ResolveNestedKeepsShape(attached: Value, inner: WithReference, getAll: GetAll)
    ensures attached.Arr? ==>
      && ResolveNested(attached, inner, getAll).Arr?
      && |ResolveNested(attached, inner, getAll).items| == |attached.items|
      && forall i :: 0 <= i < |attached.items| && attached.items[i] == Undefined ==>
           ResolveNested(attached, inner, getAll).items[i] == Undefined
    ensures attached == Undefined ==> ResolveNested(attached, inner, getAll) == Undefined
  {
  }

  /** A dotted field is collected through its path but attached through the
      plain key: when the parent has no such key and every fetched record
      carries a string id, the label reads undefined. */
  lemma DottedFieldAttachesUndefined(doc: Entries, ref: WithReference, shots: seq<Entries>, getAll: GetAll)
    requires !Has(doc, ref.field)
    requires forall j :: 0 <= j < |shots| ==> Get(shots[j], "id").Str?
    ensures Get(AttachReference(doc, ref, shots, getAll), Label(ref)) == Undefined
  {
    HasGet(doc, ref.field);
    var attached := Matches(Get(doc, ref.field), shots, "id");
    assert attached == Undefined;
    var v := if ref.nested.Some? then ResolveNested(attached, ref.nested.value, getAll) else attached;
    GetPut(doc, Label(ref), v, Label(ref));
  }

  /** A parent `{a: {b: id}}` with the field "a.b": the id is fetched, yet
      the label gets undefined. */
  lemma DottedFieldCollectedNotAttached(a: string, b: string, id: Value, ref: WithReference,
                                        shots: seq<Entries>, getAll: GetAll)
    requires forall i :: 0 <= i < |a| ==> a[i] != '.'
    requires forall i :: 0 <= i < |b| ==> b[i] != '.'
    requires Truthy(id) && !id.Arr? && ref.field == a + "." + b
    requires forall j :: 0 <= j < |shots| ==> Get(shots[j], "id").Str?
    ensures var doc := [Field(a, Obj([Field(b, id)]))];
      && IdsOf([doc], ref.field) == Success([id])
      && Get(AttachReference(doc, ref, shots, getAll), Label(ref)) == Undefined
  {
    var doc := [Field(a, Obj([Field(b, id)]))];
    PathLookupSteps(doc, a, b);
    assert [doc][1..] == [];
    assert [id] + [] == [id];
    assert |ref.field| > |a|;
    assert Keys(doc) == [a];
    DottedFieldAttachesUndefined(doc, ref, shots, getAll);
  }

  // ---------------------------------------------------------------------
  // with

  /** The collection the top-level fetch goes to: a path string is read by
      `pathToCollectionOrDocument`, and only a collection (an odd number of
      segments) has a `doc` method. */
  function TopLevelTarget(c: CollectionSpec): Option<string> {
    if c.Handle? then Some(c.path)
    else if |Split(c.path, '/')| % 2 == 1 then Some(c.path)
    else None
  }

  /** One reference over all parents: collect the ids; with none, nothing
      happens; otherwise fetch them and attach to every parent. */
  function ResolveReference(parents: seq<Entries>, ref: WithReference, getAll: GetAll): (r: Result<seq<Entries>>)
    ensures r.Success? ==> |r.value| == |parents|
    ensures IdsOf(parents, ref.field).Failure? ==> r == Failure(IdsOf(parents, ref.field).error)
    ensures IdsOf(parents, ref.field) == Success([]) ==> r == Success(parents)
    ensures IdsOf(parents, ref.field).Success? && IdsOf(parents, ref.field).value != [] ==>
      if TopLevelTarget(ref.collection).None? then r == Failure(TypeError)
      else
        var fetched := getAll(TopLevelTarget(ref.collection).value, IdsOf(parents, ref.field).value);
        && (fetched.Failure? ==> r == Failure(fetched.error))
        && (fetched.Success? ==> r.Success? && forall i :: 0 <= i < |parents| ==>
              r.value[i] == AttachReference(parents[i], ref, ShotRecords(fetched.value), getAll))
  {
    var ids :- IdsOf(parents, ref.field);
    if ids == [] then Success(parents)
    else if TopLevelTarget(ref.collection).None? then Failure(TypeError)
    else
      var snaps :- getAll(TopLevelTarget(ref.collection).value, ids);
      var shots := ShotRecords(snaps);
      Success(seq(|parents|, i requires 0 <= i < |parents| => AttachReference(parents[i], ref, shots, getAll)))
  }

  /** The parents after the references, and the first error if any. */
  datatype Resolution = Resolution(records: seq<Entries>, status: Result<()>)

  /** The references one after the other; an error stops the sequence with
      the parents as the earlier references left them. */
  function ResolveReferences(parents: seq<Entries>, references: seq<WithReference>, getAll: GetAll): (r: Resolution)
    ensures |r.records| == |parents|
    decreases |references|
  {
    if references == [] then Resolution(parents, Success(()))
    else match ResolveReference(parents, references[0], getAll)
      case Failure(e) => Resolution(parents, Failure(e))
      case Success(next) => ResolveReferences(next, references[1..], getAll)
  }

  /** `parentDocs.forEach(doc => ...)` of `getAllData`, in place. */
  method AttachReferenceToEach(parentData: array<Entries>, refData: WithReference, shotData: seq<Entries>, getAll: GetAll)
    modifies parentData
    ensures forall i :: 0 <= i < parentData.Length ==>
      parentData[i] == AttachReference(old(parentData[i]), refData, shotData, getAll)
  {
    for i := 0 to parentData.Length
      invariant forall j :: 0 <= j < i ==> parentData[j] == AttachReference(old(parentData[j]), refData, shotData, getAll)
      invariant forall j :: i <= j < parentData.Length ==> parentData[j] == old(parentData[j])
    {
      parentData[i] := AttachReference(parentData[i], refData, shotData, getAll);
    }
  }

  /** `with(parentData, references)`: updates the parent records in place. */
  method With(parentData: array<Entries>, references: seq<WithReference>, getAll: GetAll) returns (r: Result<()>)
    modifies parentData
    ensures parentData[..] == ResolveReferences(old(parentData[..]), references, getAll).records
    ensures r == ResolveReferences(old(parentData[..]), references, getAll).status
  {
    assert references[0..] == references;
    for k := 0 to |references|
      invariant ResolveReferences(parentData[..], references[k..], getAll) == ResolveReferences(old(parentData[..]), references, getAll)
    {
      var refData := references[k];
      assert references[k..][0] == refData && references[k..][1..] == references[k + 1..];
      var target: Option<string> := Some(refData.collection.path);
      if refData.collection.Unresolved? {
        PathAlwaysHasSegments(refData.collection.path);
        var handle := PathToCollectionOrDocument(refData.collection.path);
        if handle.value.DocumentRef? {
          target := None;
        }
      }
      assert target == TopLevelTarget(refData.collection);
      var docRefs := CollectDocIds(parentData[..], refData.field);
      if docRefs.Failure? {
        return Failure(docRefs.error);
      }
      if docRefs.value == [] {
        continue;
      }
      if target.None? {
        return Failure(TypeError);
      }
      var snapshot := getAll(target.value, docRefs.value);
      if snapshot.Failure? {
        return Failure(snapshot.error);
      }
      var shotData := ShotRecords(snapshot.value);
      ghost var before := parentData[..];
      AttachReferenceToEach(parentData, refData, shotData, getAll);
      assert parentData[..] == ResolveReference(before, refData, getAll).value;
    }
    assert references[|references|..] == [];
    return Success(());
  }

  /** The references keep every parent, and only their labels change. */
  lemma {:induction false} ResolveReferencesKeepsOtherFields(parents: seq<Entries>, references: seq<WithReference>, getAll: GetAll, k: string)
    requires forall ref :: ref in references ==> Label(ref) != k
    ensures |ResolveReferences(parents, references, getAll).records| == |parents|
    ensures forall i :: 0 <= i < |parents| ==>
      Get(ResolveReferences(parents, references, getAll).records[i], k) == Get(parents[i], k)
    decreases |references|
  {
    if references != [] {
      var ref := references[0];
      match ResolveReference(parents, ref, getAll)
      case Failure(_) =>
      case Success(next) =>
        assert ref in references;
        forall i | 0 <= i < |parents| ensures Get(next[i], k) == Get(parents[i], k) {
          var ids := IdsOf(parents, ref.field).value;
          if ids != [] {
            var shots := ShotRecords(getAll(TopLevelTarget(ref.collection).value, ids).value);
            AttachReferenceReads(parents[i], ref, shots, getAll, k);
          }
        }
        assert forall r :: r in references[1..] ==> r in references;
        ResolveReferencesKeepsOtherFields(next, references[1..], getAll, k);
    }
  }

  /** A reference whose collection path names a document fails as soon as
      there is an id to fetch, and does nothing when there is none. */
  lemma DocumentPathReference(parents: seq<Entries>, ref: WithReference, getAll: GetAll)
    requires ref.collection.Unresolved? && |Split(ref.collection.path, '/')| % 2 == 0
    requires IdsOf(parents, ref.field).Success?
    ensures IdsOf(parents, ref.field).value == [] ==> ResolveReference(parents, ref, getAll) == Success(parents)
    ensures IdsOf(parents, ref.field).value != [] ==> ResolveReference(parents, ref, getAll) == Failure(TypeError)
  {
  }

  /** `getRelations(parentData, options)`: the relations first, then the
      references, each only when given. */
  method GetRelations(parentData: array<Entries>, relations: Option<seq<Relation>>, references: Option<seq<WithReference>>,
                      store: Store, getAll: GetAll) returns (r: Result<()>)
    modifies parentData
    ensures relations.None? && references.None? ==> r.Success? && parentData[..] == old(parentData[..])
    ensures relations.Some? && !ResolveRelations(old(parentData[..]), relations.value, store).ok ==>
      && parentData[..] == ResolveRelations(old(parentData[..]), relations.value, store).records
      && r == Failure(InternalServerError(RelationsErrorMessage))
    ensures relations.Some? && ResolveRelations(old(parentData[..]), relations.value, store).ok && references.None? ==>
      && parentData[..] == ResolveRelations(old(parentData[..]), relations.value, store).records
      && r == Success(())
    ensures relations.Some? && ResolveRelations(old(parentData[..]), relations.value, store).ok && references.Some? ==>
      var related := ResolveRelations(old(parentData[..]), relations.value, store).records;
      && parentData[..] == ResolveReferences(related, references.value, getAll).records
      && r == ResolveReferences(related, references.value, getAll).status
    ensures relations.None? && references.Some? ==>
      && parentData[..] == ResolveReferences(old(parentData[..]), references.value, getAll).records
      && r == ResolveReferences(old(parentData[..]), references.value, getAll).status
  {
    if relations.Some? {
      r := Relations(parentData, relations.value, store);
      if r.Failure? {
        return;
      }
    }
    r := Success(());
    if references.Some? {
      r := With(parentData, references.value, getAll);
    }
  }
}
