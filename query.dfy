/** Translating filter objects into store predicates and assembling a query
    (`toWhere`, `toOrWhere`, `buildQuery`, `serializeDocs` and `get` of the
    Firestore repository service). The store itself is a function from a
    collection and a list of query stages to the documents it returns. */
module Query {
  import opened JsValues
  import opened Filters

  /** `Filter.where(field, op, operand)`; `op == None` is an undefined comparator. */
  datatype Predicate = Predicate(field: string, op: Option<string>, operand: Value)

  /** One refinement of a query, as `buildQuery` applies them. */
  datatype Stage =
    | AndGroup(preds: seq<Predicate>)              // query.where(Filter.and(...))
    | OrGroup(branches: seq<Option<Predicate>>)    // query.where(Filter.or(...)); None is an undefined entry
    | SelectFields(fields: seq<string>)            // query.select(...)

  datatype QueryOptions = QueryOptions(where: Option<Entries>, orWhere: Option<seq<Entries>>, select: Option<seq<string>>)

  /** A document snapshot: its id and its stored fields. */
  datatype Doc = Doc(id: string, data: Entries)

  /** Runs a query against a collection. A failure the store reports is a
      `StoreError`; it reaches the caller unchanged. */
  type Store = (string, seq<Stage>) -> Result<seq<Doc>>

  const NoOptions := QueryOptions(None, None, None)

  // ---------------------------------------------------------------------
  // toWhere

  /** The guard `obj[key] && obj[key] != ""`: the fields that yield a predicate. */
  predicate Emits(v: Value) {
    Truthy(v) && !LooselyEqualsEmptyString(v)
  }

  /** The predicate of one field whose value passes the guard: equality for
      a scalar; for an object or array its first entry `[k, v]`, giving
      `(field, whereFilterOps.get(k), v)`. An object with no entries cannot
      be destructured: TypeError. */
  function FieldPredicate(f: Field): (r: Result<Predicate>)
    ensures !IsObjectType(f.val) ==> r == Success(Predicate(f.key, Some("=="), f.val))
    ensures f.val.Obj? && |f.val.fields| > 0 ==>
      r == Success(Predicate(f.key, LookupOp(f.val.fields[0].key), f.val.fields[0].val))
    ensures f.val.Arr? && |f.val.items| > 0 ==> r == Success(Predicate(f.key, None, f.val.items[0]))
    ensures r.Failure? <==> f.val in {Null, Obj([]), Arr([])}
  {
    if IsObjectType(f.val) then
      match FirstEntry(f.val)
      case None => Failure(TypeError)
      case Some(entry) =>
        assert f.val.Arr? ==> entry.key == "0" && LookupOp("0") == None;
        Success(Predicate(f.key, LookupOp(entry.key), entry.val))
    else
      Success(Predicate(f.key, Some("=="), f.val))
  }

  /** `toWhere(obj)`: one predicate per passing field, in key order. */
  function ToWhere(obj: Entries): Result<seq<Predicate>>
  {
    if obj == [] then Success([])
    else if !Emits(obj[0].val) then ToWhere(obj[1..])
    else
      var p :- FieldPredicate(obj[0]);
      var rest :- ToWhere(obj[1..]);
      Success([p] + rest)
  }

  /** The fields of `obj` that pass the guard, in key order. */
  function Passing(obj: Entries): (r: seq<Field>)
    ensures |r| <= |obj|
    ensures forall f :: f in r <==> f in obj && Emits(f.val)
  {
    if obj == [] then []
    else if Emits(obj[0].val) then [obj[0]] + Passing(obj[1..])
    else Passing(obj[1..])
  }

  /** `toWhere` fails exactly when a passing field holds an empty object;
      otherwise it yields the predicates of the passing fields, in order. */
  lemma {:induction false} ToWhereMeaning(obj: Entries)
    ensures ToWhere(obj).Success? <==> forall i :: 0 <= i < |obj| && Emits(obj[i].val) ==> obj[i].val != Obj([])
    ensures ToWhere(obj).Failure? ==> ToWhere(obj).error == TypeError
    ensures ToWhere(obj).Success? ==> |ToWhere(obj).value| == |Passing(obj)| <= |obj|
    ensures ToWhere(obj).Success? ==>
      forall i :: 0 <= i < |Passing(obj)| ==> ToWhere(obj).value[i] == FieldPredicate(Passing(obj)[i]).value
  {
    if obj != [] {
      ToWhereMeaning(obj[1..]);
      assert forall i :: 1 <= i < |obj| ==> obj[1..][i - 1] == obj[i];
      if Emits(obj[0].val) && ToWhere(obj).Success? {
        var rest := ToWhere(obj[1..]).value;
        assert ToWhere(obj).value == [FieldPredicate(obj[0]).value] + rest;
      }
    }
  }

  /** Fields that are undefined, null, "", 0, false or [] add no predicate;
      an object without passing fields (`{}` included) gives none. */
  lemma {:induction false} ToWhereSkipsEmptyValues(obj: Entries)
    requires forall i :: 0 <= i < |obj| ==> obj[i].val in {Undefined, Null, Str(""), Num(0), Bool(false), Arr([])}
    ensures ToWhere(obj) == Success([])
  {
    if obj != [] {
      assert obj[0].val in {Undefined, Null, Str(""), Num(0), Bool(false), Arr([])};
      assert !Emits(obj[0].val);
      assert forall i :: 1 <= i < |obj| ==> obj[1..][i - 1] == obj[i];
      ToWhereSkipsEmptyValues(obj[1..]);
    }
  }

  // ---------------------------------------------------------------------
  // toOrWhere

  /** `arr[0]` of a predicate list; None stands for `undefined`. */
  function First(ps: seq<Predicate>): Option<Predicate> {
    if ps == [] then None else Some(ps[0])
  }

  /** `toOrWhere(arrObj)`: the first predicate of each filter object. */
  function ToOrWhere(objs: seq<Entries>): (r: Result<seq<Option<Predicate>>>)
    ensures r.Success? ==> |r.value| == |objs|
  {
    if objs == [] then Success([])
    else
      var ps :- ToWhere(objs[0]);
      var rest :- ToOrWhere(objs[1..]);
      Success([First(ps)] + rest)
  }

  /** One entry per filter object: the predicate of its first passing field,
      or undefined when it has none. */
  lemma {:induction false} ToOrWhereMeaning(objs: seq<Entries>)
    ensures ToOrWhere(objs).Success? <==> forall i :: 0 <= i < |objs| ==> ToWhere(objs[i]).Success?
    ensures ToOrWhere(objs).Failure? ==> ToOrWhere(objs).error == TypeError
    ensures ToOrWhere(objs).Success? ==> |ToOrWhere(objs).value| == |objs|
    ensures ToOrWhere(objs).Success? ==> forall i :: 0 <= i < |objs| ==>
      ToOrWhere(objs).value[i] == First(ToWhere(objs[i]).value)
      && (ToOrWhere(objs).value[i].None? <==> Passing(objs[i]) == [])
  {
    if objs != [] {
      ToWhereMeaning(objs[0]);
      ToOrWhereMeaning(objs[1..]);
      assert forall i :: 1 <= i < |objs| ==> objs[1..][i - 1] == objs[i];
      forall i | 0 <= i < |objs| && ToWhere(objs[i]).Success?
        ensures First(ToWhere(objs[i]).value).None? <==> Passing(objs[i]) == []
      {
        FirstIsNoneIffNonePass(objs[i]);
      }
      if ToOrWhere(objs).Success? {
        assert ToOrWhere(objs).value == [First(ToWhere(objs[0]).value)] + ToOrWhere(objs[1..]).value;
      }
    }
  }

  lemma FirstIsNoneIffNonePass(obj: Entries)
    requires ToWhere(obj).Success?
    ensures First(ToWhere(obj).value).None? <==> Passing(obj) == []
  {
    ToWhereMeaning(obj);
  }

  // ---------------------------------------------------------------------
  // buildQuery

  function AndStage(where: Option<Entries>): Result<seq<Stage>> {
    match where
    case None => Success([])
    case Some(w) => var ps :- ToWhere(w); Success([AndGroup(ps)])
  }

  function OrStage(orWhere: Option<seq<Entries>>): Result<seq<Stage>> {
    match orWhere
    case None => Success([])
    case Some(os) => var bs :- ToOrWhere(os); Success([OrGroup(bs)])
  }

  function SelectStage(select: Option<seq<string>>): seq<Stage> {
    match select
    case None => []
    case Some(fs) => [SelectFields(fs)]
  }

  /** The position of a stage kind in `buildQuery`'s fixed order. */
  function Rank(s: Stage): nat {
    match s
    case AndGroup(_) => 0
    case OrGroup(_) => 1
    case SelectFields(_) => 2
  }

  /** `buildQuery(query, options)`: refines `base` by the `where` group, then
      the `orWhere` group, then the projection, each only when present. */
  function BuildQuery(base: seq<Stage>, options: QueryOptions): (r: Result<seq<Stage>>)
    ensures r.Success? <==>
      (options.where.None? || ToWhere(options.where.value).Success?)
      && (options.orWhere.None? || ToOrWhere(options.orWhere.value).Success?)
    ensures r.Success? ==> |r.value| >= |base| && r.value[..|base|] == base
    ensures options == NoOptions ==> r == Success(base)
  {
    var ands :- AndStage(options.where);
    var ors :- OrStage(options.orWhere);
    var added := ands + ors + SelectStage(options.select);
    assert (base + added)[..|base|] == base;
    assert options == NoOptions ==> base + added == base;
    Success(base + added)
  }

  /** The stages `buildQuery` adds come in the fixed order where, orWhere,
      select; each is there exactly when its option is, and carries the
      translation of that option. */
  lemma BuildQueryStages(base: seq<Stage>, options: QueryOptions)
    requires BuildQuery(base, options).Success?
    ensures var r := BuildQuery(base, options).value;
      && (forall i, j :: |base| <= i < j < |r| ==> Rank(r[i]) < Rank(r[j]))
      && (options.where.Some? <==> exists i :: |base| <= i < |r| && r[i].AndGroup?)
      && (options.orWhere.Some? <==> exists i :: |base| <= i < |r| && r[i].OrGroup?)
      && (options.select.Some? <==> exists i :: |base| <= i < |r| && r[i].SelectFields?)
      && forall i :: |base| <= i < |r| ==> match r[i]
           case AndGroup(ps) => ps == ToWhere(options.where.value).value
           case OrGroup(bs) => bs == ToOrWhere(options.orWhere.value).value
           case SelectFields(fs) => fs == options.select.value
  {
    var r := BuildQuery(base, options).value;
    var ands := AndStage(options.where).value;
    var ors := OrStage(options.orWhere).value;
    var sel := SelectStage(options.select);
    var added := ands + ors + sel;
    assert r == base + added;
    assert forall i :: |base| <= i < |r| ==> r[i] == added[i - |base|];
    StagesInOrder(options, ands, ors, sel);
  }

  /** The stages `buildQuery` may add, each alone or absent, in order. */
  lemma StagesInOrder(options: QueryOptions, ands: seq<Stage>, ors: seq<Stage>, sel: seq<Stage>)
    requires AndStage(options.where) == Success(ands)
    requires OrStage(options.orWhere) == Success(ors)
    requires SelectStage(options.select) == sel
    ensures var added := ands + ors + sel;
      && (forall i, j :: 0 <= i < j < |added| ==> Rank(added[i]) < Rank(added[j]))
      && (options.where.Some? <==> exists i :: 0 <= i < |added| && added[i].AndGroup?)
      && (options.orWhere.Some? <==> exists i :: 0 <= i < |added| && added[i].OrGroup?)
      && (options.select.Some? <==> exists i :: 0 <= i < |added| && added[i].SelectFields?)
      && forall i :: 0 <= i < |added| ==> match added[i]
           case AndGroup(ps) => ps == ToWhere(options.where.value).value
           case OrGroup(bs) => bs == ToOrWhere(options.orWhere.value).value
           case SelectFields(fs) => fs == options.select.value
  {
    var added := ands + ors + sel;
    var na, no := |ands|, |ors|;
    assert na == (if options.where.Some? then 1 else 0);
    assert no == (if options.orWhere.Some? then 1 else 0);
    assert |sel| == (if options.select.Some? then 1 else 0);
    assert forall i :: 0 <= i < |added| ==>
      if i < na then added[i] == ands[0] && added[i].AndGroup?
      else if i < na + no then added[i] == ors[0] && added[i].OrGroup?
      else added[i] == sel[0] && added[i].SelectFields?;
    if options.where.Some? { assert added[0].AndGroup?; }
    if options.orWhere.Some? { assert added[na].OrGroup?; }
    if options.select.Some? { assert added[na + no].SelectFields?; }
  }

  /** Every failure of `buildQuery` is the TypeError of an untranslatable filter. */
  lemma BuildQueryFailsWithTypeError(base: seq<Stage>, options: QueryOptions)
    ensures BuildQuery(base, options).Failure? ==> BuildQuery(base, options).error == TypeError
  {
    if options.where.Some? {
      ToWhereMeaning(options.where.value);
    }
    if options.orWhere.Some? {
      ToOrWhereMeaning(options.orWhere.value);
    }
  }

  // ---------------------------------------------------------------------
  // serializeDocs and get

  /** `{ id: doc.id, ...doc.data() }` */
  function Serialize(d: Doc): Entries {
    Spread([Field("id", Str(d.id))], d.data)
  }

  /** A serialized document reads as its data, with `id` defaulting to the
      document id (a stored `id` field wins), and `id` is its first key. */
  lemma SerializeReads(d: Doc, k: string)
    requires DistinctKeys(d.data)
    ensures Get(Serialize(d), k) == if Has(d.data, k) then Get(d.data, k) else if k == "id" then Str(d.id) else Undefined
    ensures |Serialize(d)| >= 1 && Serialize(d)[0].key == "id"
  {
    GetSpread([Field("id", Str(d.id))], d.data, k);
    SpreadKeepsTargetPrefix([Field("id", Str(d.id))], d.data);
    assert Keys(Serialize(d))[..1] == ["id"];
  }

  /** `serializeDocs(snapshot)`: one record per document, in order. */
  function SerializeDocs(docs: seq<Doc>): (r: seq<Entries>)
    ensures |r| == |docs| && forall i :: 0 <= i < |docs| ==> r[i] == Serialize(docs[i])
  {
    seq(|docs|, i requires 0 <= i < |docs| => Serialize(docs[i]))
  }

  /** `get(collection, options)`: build the query, run it, serialize. A
      filter that cannot be translated fails before the store is reached. */
  function GetRecords(collection: string, options: QueryOptions, store: Store): (r: Result<seq<Entries>>)
    ensures BuildQuery([], options).Failure? ==> r == Failure(TypeError)
    ensures BuildQuery([], options).Success? ==>
      var docs := store(collection, BuildQuery([], options).value);
      && (docs.Failure? ==> r == Failure(docs.error))
      && (docs.Success? ==> r.Success? && |r.value| == |docs.value|
                            && forall i :: 0 <= i < |docs.value| ==> r.value[i] == Serialize(docs.value[i]))
  {
    BuildQueryFailsWithTypeError([], options);
    var stages :- BuildQuery([], options);
    var docs :- store(collection, stages);
    Success(SerializeDocs(docs))
  }
}
