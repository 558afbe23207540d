/** The request handlers of the generated CRUD controller (`CrudFactory` in
    crud/src/crud.controller.ts): how `findAll`, `findOne`, `update` and
    `delete` turn a request into a repository query, the optional `before*`
    hooks, and the guards that raise NotFound and BadRequest. The repository
    and the hooks are functions given with the configuration. */
module CrudController {
  import opened JsValues

  /** The repository calls the handlers make (`IBaseRepository`). */
  datatype Repository = Repository(
    paginate: Entries -> Result<Value>,
    findOne: Entries -> Result<Value>,
    update: Entries -> Result<Value>,
    delete: Entries -> Result<Value>)

  /** `CrudConfig`: the repository, the search keys and the hooks. */
  datatype CrudConfig = CrudConfig(
    repository: Repository,
    searchKeys: Option<seq<string>>,
    beforeFindAll: Option<Entries -> Result<Entries>>,
    beforeFindOne: Option<Entries -> Result<Entries>>,
    beforeUpdate: Option<(Value, seq<Value>) -> Result<Value>>,
    beforeDelete: Option<Value -> Result<Value>>)

  const NotFoundMessage := "Item not found"
  const NotFoundForUpdateMessage := "Item not found for update"
  const NoIdsMessage := "No ids found"
  const UpdatedMessage := "Item updated successfully"
  const DeletedSuffix := " items deleted successfully"

  /** The value after an optional hook: the hook's output when there is one. */
  function ApplyHook<T>(hook: Option<T -> Result<T>>, x: T): (r: Result<T>)
    ensures hook.None? ==> r == Success(x)
  {
    if hook.Some? then hook.value(x) else Success(x)
  }

  // ---------------------------------------------------------------------
  // findAll

  /** `{[key]: src}` for each search key, in order; none without a truthy
      `src` or without search keys. */
  function SearchQuery(searchKeys: Option<seq<string>>, src: Value): (r: seq<Entries>)
  {
    if Truthy(src) && searchKeys.Some? then
      seq(|searchKeys.value|, i requires 0 <= i < |searchKeys.value| => [Field(searchKeys.value[i], src)])
    else []
  }

  /** The query parameters without `page`, `limit` and `src`. */
  function FindAllWhere(queryParams: Entries): Entries {
    Remove(Remove(Remove(queryParams, "page"), "limit"), "src")
  }

  /** `{where: queryParams, orWhere: searchQuery}` */
  function FindAllQuery(searchKeys: Option<seq<string>>, queryParams: Entries): Entries {
    var searchQuery := SearchQuery(searchKeys, Get(queryParams, "src"));
    [Field("where", Obj(FindAllWhere(queryParams))),
     Field("orWhere", Arr(seq(|searchQuery|, i requires 0 <= i < |searchQuery| => Obj(searchQuery[i]))))]
  }

  /** `findAll(queryParams)`: strips the paging and search parameters, builds
      the search alternatives, applies `beforeFindAll`, and paginates. */
  method FindAll(config: CrudConfig, queryParams: Entries) returns (r: Result<Value>)
    ensures var query := ApplyHook(config.beforeFindAll, FindAllQuery(config.searchKeys, queryParams));
      query.Failure? ==> r == Failure(query.error)
    ensures var query := ApplyHook(config.beforeFindAll, FindAllQuery(config.searchKeys, queryParams));
      query.Success? ==> r == config.repository.paginate(query.value)
  {
    var params := queryParams;
    params := Remove(params, "page");
    params := Remove(params, "limit");
    var src := Get(params, "src");
    GetRemove(queryParams, "page", "src");
    GetRemove(Remove(queryParams, "page"), "limit", "src");
    params := Remove(params, "src");

    var searchQuery: seq<Value> := [];
    if Truthy(src) && config.searchKeys.Some? {
      var keys := config.searchKeys.value;
      for i := 0 to |keys|
        invariant searchQuery == seq(i, j requires 0 <= j < i => Obj([Field(keys[j], src)]))
      {
        searchQuery := searchQuery + [Obj([Field(keys[i], src)])];
      }
    }

    var query := [Field("where", Obj(params)), Field("orWhere", Arr(searchQuery))];
    ghost var expected := SearchQuery(config.searchKeys, Get(queryParams, "src"));
    assert searchQuery == seq(|expected|, i requires 0 <= i < |expected| => Obj(expected[i]));
    assert query == FindAllQuery(config.searchKeys, queryParams);
    if config.beforeFindAll.Some? {
      var hooked := config.beforeFindAll.value(query);
      if hooked.Failure? {
        return Failure(hooked.error);
      }
      query := hooked.value;
    }
    r := config.repository.paginate(query);
  }

  /** Without a hook the repository gets exactly `where` and `orWhere`: the
      `where` is the query parameters minus `page`, `limit` and `src` (so
      the requested page and limit never reach the pagination), and
      `orWhere` holds one `{key: src}` per search key, in order. */
  lemma FindAllQueryMeaning(searchKeys: Option<seq<string>>, queryParams: Entries, k: string)
    ensures var query := FindAllQuery(searchKeys, queryParams);
      && Keys(query) == ["where", "orWhere"]
      && Get(query, "where").Obj?
      && Get(Get(query, "where").fields, k) == (if k in {"page", "limit", "src"} then Undefined else Get(queryParams, k))
    ensures var items := Get(FindAllQuery(searchKeys, queryParams), "orWhere");
      var src := Get(queryParams, "src");
      && items.Arr?
      && |items.items| == (if Truthy(src) && searchKeys.Some? then |searchKeys.value| else 0)
      && forall i :: 0 <= i < |items.items| ==> items.items[i] == Obj([Field(searchKeys.value[i], src)])
  {
    var q1 := Remove(queryParams, "page");
    var q2 := Remove(q1, "limit");
    GetRemove(queryParams, "page", k);
    GetRemove(q1, "limit", k);
    GetRemove(q2, "src", k);
    var query := FindAllQuery(searchKeys, queryParams);
    assert Keys(query) == ["where", "orWhere"] by {
      assert query[1..][1..] == [];
    }
  }

  /** With a truthy `src` and two search keys, `orWhere` is `[{name: src}, {email: src}]`. */
  lemma FindAllSearchExample(queryParams: Entries)
    requires Get(queryParams, "src") == Str("ana")
    ensures Get(FindAllQuery(Some(["name", "email"]), queryParams), "orWhere")
      == Arr([Obj([Field("name", Str("ana"))]), Obj([Field("email", Str("ana"))])])
  {
  }

  // ---------------------------------------------------------------------
  // findOne

  /** `{where: {id, ...queryParams}}` */
  function FindOneQuery(id: string, queryParams: Entries): Entries {
    [Field("where", Obj(Spread([Field("id", Str(id))], queryParams)))]
  }

  /** `findOne(id, queryParams)`: a falsy repository result is NotFound. */
  function FindOne(config: CrudConfig, id: string, queryParams: Entries): (r: Result<Value>)
    ensures r.Success? ==> r.value.Obj? && Keys(r.value.fields) == ["data"] && Truthy(Get(r.value.fields, "data"))
    ensures var query := ApplyHook(config.beforeFindOne, FindOneQuery(id, queryParams));
      query.Failure? ==> r == Failure(query.error)
    ensures var query := ApplyHook(config.beforeFindOne, FindOneQuery(id, queryParams));
      query.Success? && config.repository.findOne(query.value).Failure? ==>
        r == Failure(config.repository.findOne(query.value).error)
    ensures var query := ApplyHook(config.beforeFindOne, FindOneQuery(id, queryParams));
      query.Success? && config.repository.findOne(query.value).Success? ==>
        var data := config.repository.findOne(query.value).value;
        if Truthy(data) then r == Success(Obj([Field("data", data)])) else r == Failure(NotFound(NotFoundMessage))
  {
    var query :- ApplyHook(config.beforeFindOne, FindOneQuery(id, queryParams));
    var data :- config.repository.findOne(query);
    if !Truthy(data) then Failure(NotFound(NotFoundMessage)) else Success(Obj([Field("data", data)]))
  }

  /** The `where` of `findOne` reads the query parameters, and `id` falls
      back to the path id: a query parameter named `id` overrides it. */
  lemma FindOneQueryReads(id: string, queryParams: Entries, k: string)
    requires DistinctKeys(queryParams)
    ensures var where := Get(FindOneQuery(id, queryParams), "where");
      && where.Obj?
      && Get(where.fields, k) ==
           (if Has(queryParams, k) then Get(queryParams, k) else if k == "id" then Str(id) else Undefined)
      && |where.fields| >= 1 && Keys(where.fields)[0] == "id"
  {
    GetSpread([Field("id", Str(id))], queryParams, k);
    SpreadKeepsTargetPrefix([Field("id", Str(id))], queryParams);
  }

  // ---------------------------------------------------------------------
  // update

  /** `{where: {id}, data: dto}` */
  function UpdateQuery(id: string, dto: Value): Entries {
    [Field("where", Obj([Field("id", Str(id))])), Field("data", dto)]
  }

  /** The body after `beforeUpdate`. */
  function UpdateDto(config: CrudConfig, updateDto: Value, files: seq<Value>): (r: Result<Value>)
    ensures config.beforeUpdate.None? ==> r == Success(updateDto)
  {
    if config.beforeUpdate.Some? then config.beforeUpdate.value(updateDto, files) else Success(updateDto)
  }

  /** `update(id, updateDto, files)`: the hook may rewrite the body but not
      the target; a falsy repository result is NotFound. */
  function Update(config: CrudConfig, id: string, updateDto: Value, files: seq<Value>): (r: Result<Value>)
    ensures UpdateDto(config, updateDto, files).Failure? ==> r == Failure(UpdateDto(config, updateDto, files).error)
    ensures UpdateDto(config, updateDto, files).Success? ==>
      var result := config.repository.update(UpdateQuery(id, UpdateDto(config, updateDto, files).value));
      && (result.Failure? ==> r == Failure(result.error))
      && (result.Success? && !Truthy(result.value) ==> r == Failure(NotFound(NotFoundForUpdateMessage)))
      && (result.Success? && Truthy(result.value) ==>
            r == Success(Obj([Field("message", Str(UpdatedMessage)), Field("data", result.value)])))
  {
    var dto :- UpdateDto(config, updateDto, files);
    var data :- config.repository.update(UpdateQuery(id, dto));
    if !Truthy(data) then Failure(NotFound(NotFoundForUpdateMessage))
    else Success(Obj([Field("message", Str(UpdatedMessage)), Field("data", data)]))
  }

  /** The update always targets the path id, whatever the body holds. */
  lemma UpdateTargetsPathId(id: string, dto: Value)
    ensures Get(UpdateQuery(id, dto), "where") == Obj([Field("id", Str(id))])
    ensures Get(Get(UpdateQuery(id, dto), "where").fields, "id") == Str(id)
    ensures Get(UpdateQuery(id, dto), "data") == dto
  {
  }

  // ---------------------------------------------------------------------
  // delete

  /** `!ids || ids.length <= 0` */
  predicate NoIds(ids: Value) {
    !Truthy(ids) ||
    match PropertyOf(ids, "length")
    case Failure(_) => false   // unreachable: a truthy value is neither null nor undefined
    case Success(length) => AtMostZero(length)
  }

  /** `x <= 0` for the values a `length` can read as. */
  predicate AtMostZero(x: Value) {
    match x
    case Num(n) => n <= 0
    case Null => true        // null <= 0
    case Bool(b) => !b       // false <= 0, true > 0
    case _ => false          // undefined compares as NaN
  }

  /** The decimal numeral of `n`. */
  function NatToString(n: nat): (s: string)
    ensures |s| > 0 && forall i :: 0 <= i < |s| ==> IsDigit(s[i])
    decreases n
  {
    if n < 10 then ["0123456789"[n]] else NatToString(n / 10) + ["0123456789"[n % 10]]
  }

  /** `${v}` in a template literal. */
  function Display(v: Value): string
    decreases v
  {
    match v
    case Undefined => "undefined"
    case Null => "null"
    case Bool(b) => if b then "true" else "false"
    case Num(n) => if n < 0 then "-" + NatToString(-n) else NatToString(n)
    case Str(s) => s
    case Arr(items) =>
      Join(seq(|items|, i requires 0 <= i < |items| =>
        if items[i].Undefined? || items[i].Null? then "" else Display(items[i])), ',')
    case Obj(_) => "[object Object]"
  }

  /** `{where: {id: ids}}` */
  function DeleteQuery(ids: Value): Entries {
    [Field("where", Obj([Field("id", ids)]))]
  }

  /** `delete(ids)`: rejects a missing or empty id list before any hook or
      repository call; the message reports how many records were deleted. */
  function Delete(config: CrudConfig, ids: Value): (r: Result<Value>)
    ensures NoIds(ids) ==> r == Failure(BadRequest(NoIdsMessage))
    ensures !NoIds(ids) && ApplyHook(config.beforeDelete, ids).Failure? ==>
      r == Failure(ApplyHook(config.beforeDelete, ids).error)
    ensures !NoIds(ids) && ApplyHook(config.beforeDelete, ids).Success? ==>
      var result := config.repository.delete(DeleteQuery(ApplyHook(config.beforeDelete, ids).value));
      && (result.Failure? ==> r == Failure(result.error))
      && (result.Success? && result.value.Arr? ==>
            r == Success(Obj([Field("message", Str(Display(Num(|result.value.items|)) + DeletedSuffix))])))
      && (result.Success? && (result.value.Undefined? || result.value.Null?) ==> r == Failure(TypeError))
      && (result.Success? && PropertyOf(result.value, "length").Success? ==>
            r == Success(Obj([Field("message", Str(Display(PropertyOf(result.value, "length").value) + DeletedSuffix))])))
  {
    if NoIds(ids) then Failure(BadRequest(NoIdsMessage))
    else
      var hooked :- ApplyHook(config.beforeDelete, ids);
      var deleted :- config.repository.delete(DeleteQuery(hooked));
      var count :- PropertyOf(deleted, "length");
      Success(Obj([Field("message", Str(Display(count) + DeletedSuffix))]))
  }

  /** The guard depends on the ids alone: no configuration, hook or
      repository can turn an absent or empty id list into a call. */
  lemma DeleteGuardFirst(c1: CrudConfig, c2: CrudConfig, ids: Value)
    requires NoIds(ids)
    ensures Delete(c1, ids) == Delete(c2, ids) == Failure(BadRequest(NoIdsMessage))
  {
  }

  /** Absent, null, empty-string and empty-array ids are rejected; a
      non-empty array or id string is not. */
  lemma NoIdsCases(ids: seq<Value>, id: string)
    ensures NoIds(Undefined) && NoIds(Null) && NoIds(Str("")) && NoIds(Arr([]))
    ensures NoIds(Arr(ids)) <==> ids == []
    ensures !NoIds(Str(id)) <==> id != ""
  {
  }

  /** Without a hook, deleting two ids that the repository reports as two
      deleted records answers "2 items deleted successfully". */
  lemma DeleteMessageExample(config: CrudConfig, a: Value, b: Value)
    requires config.beforeDelete.None?
    requires config.repository.delete(DeleteQuery(Arr([Str("p1"), Str("p2")]))) == Success(Arr([a, b]))
    ensures Delete(config, Arr([Str("p1"), Str("p2")]))
      == Success(Obj([Field("message", Str("2" + DeletedSuffix))]))
  {
    var ids := Arr([Str("p1"), Str("p2")]);
    assert !NoIds(ids) by {
      assert PropertyOf(ids, "length") == Success(Num(2));
    }
    assert |Arr([a, b]).items| == 2;
    assert Display(Num(2)) == "2";
  }

  /** The number in the message reads back as the count it came from. */
  lemma {:induction false} NatToStringRoundTrip(n: nat)
    ensures DigitsValue(NatToString(n)) == n
    ensures IsCanonicalIndex(NatToString(n))
    decreases n
  {
    var s := NatToString(n);
    if n >= 10 {
      NatToStringRoundTrip(n / 10);
      assert s[..|s| - 1] == NatToString(n / 10);
      assert s[|s| - 1] == "0123456789"[n % 10];
    } else {
      assert s == ["0123456789"[n]];
    }
  }
}
