# A verified model of a Firestore repository layer and its CRUD controller

This project models the core of a NestJS library in Dafny. The library has two parts:

- a generic repository over Firestore (`RepositoryService`);
- a factory for REST CRUD controllers (`CrudFactory`).

The model covers:

- how a declarative filter object becomes store predicates (`toWhere`, `toOrWhere`, `buildQuery` and the `whereFilterOps` table);
- how a `/`-separated path is read as alternating collection and document segments;
- the offset pagination arithmetic;
- the relation join (`relations`), which does one batched OR lookup per relation and attaches the matches in place;
- reference resolution (`with`): dotted-path id lookup (`getObjectByPath`), batched fetch by id, in-place attachment that mirrors the field's shape, and nested references;
- the controller handlers `findAll`, `findOne`, `update` and `delete`: the queries they build, their hooks, and their NotFound and BadRequest guards.

JavaScript values are written out explicitly (`JsValues`):

- Objects are ordered field lists. Reading a missing key gives `undefined`, assignment keeps a key's position, and spread writes the fields one by one.
- Truthiness, `== ""` (with arrays compared through their string form), `===`, `Object.entries(v)[0]`, property access (`TypeError` on `null`/`undefined`), `split` and `join` are all defined.

The document store is a parameter:

- `Query.Store` runs a list of query stages against a collection.
- `References.GetAll` fetches documents by id.
- The repository calls and the `before*` hooks of the controller are function fields of `CrudController.CrudConfig`.

Imperative code stays imperative:

- Path parsing, `getObjectByPath`, the id-collecting push loop and `findAll` are methods with loops; `pagination`, which has no loop, is a method that builds its result field by field.
- `relations` and `with` update an `array` of parent records in place.
- Each method is proved against a specification function, and the lemmas state what the source promises about that function.

Modules: `JsValues` (js_values.dfy), `Filters` (filters.dfy), `Query` (query.dfy), `Paths` (paths.dfy), `Pagination` (pagination.dfy), `RelationJoin` (relations.dfy), `References` (references.dfy), `CrudController` (crud_controller.dfy).

Two behaviours of the code are modelled as written and stated as lemmas:

- `$greaterThanOrEqual` maps to `<=` (`Filters.TableComparators`).
- A dotted `with` field is looked up by path when ids are collected, but read as a plain key when records are attached. The ids are fetched, yet the label receives `undefined` (`References.DottedFieldCollectedNotAttached`).

Also as written:

- `findAll` reads `page` and `limit`, deletes them from the query parameters and does not forward them in the query it hands to `paginate`; only a `beforeFindAll` hook can put them back (`CrudController.FindAllQueryMeaning`). The repository's `paginate` is not part of this model, so whatever else it consults is not either.
- A nested reference whose collection is a path string is never resolved, because only the top level turns paths into handles (`References.NestedPathStringIgnored`).

## Model

| member | source | states |
|---|---|---|
| Filters.LookupOp | repository/src/filters.ts:1-13 | a keyword outside the table has no comparator (undefined); every comparator the table gives is a store comparator, and none is `==` or `>=` |
| Filters.TableKeys | repository/src/filters.ts:2-12 | the table's keys are exactly the nine `$` keywords |
| Filters.TableSize | repository/src/filters.ts:2-12 | the table has nine entries |
| Filters.TableValues | repository/src/filters.ts:3-11 | the comparators the table gives are exactly `<`, `<=`, `>`, `in`, `not-in`, `!=`, `array-contains` and `array-contains-any` |
| Filters.TableComparators | repository/src/filters.ts:3-11 | only eight distinct comparators: `$greaterThanOrEqual` and `$lessThanOrEqual` both give `<=`, and no keyword gives `>=` |
| Filters.TableEntries | repository/src/filters.ts:3-11 | the comparator of each keyword; `0` (an array's first key) and `$eq` have none |
| JsValues.FirstEntry | repository/src/providers/firebase/repository.service.ts:80 | `Object.entries(v)[0]`: an object's first field, an array's element at key "0", none when empty |
| JsValues.IsObjectType | repository/src/providers/firebase/repository.service.ts:79 | `typeof v == "object"`: null, arrays and objects (used by `Query.FieldPredicate`) |
| JsValues.JoinsToEmpty | repository/src/providers/firebase/repository.service.ts:75 | an array element whose string form in `join` is empty: undefined, null, "" and arrays that themselves join to ""; the array case of `JsValues.LooselyEqualsEmptyString` |
| JsValues.Truthy | repository/src/providers/firebase/repository.service.ts:75 | JavaScript truthiness: undefined, null, false, 0, "" are falsy; every object and array, `[]` and `{}` included, is truthy |
| JsValues.LooselyEqualsEmptyString | repository/src/providers/firebase/repository.service.ts:75 | `v != ""` negated: false, 0, "" and arrays whose string form is empty (`[]`, `[""]`, ...) equal `""`; undefined, null and plain objects do not |
| JsValues.StrictEquals | repository/src/providers/firebase/repository.service.ts:286-292 | `===`: equal primitives of the same type; an array or object is never `===` to anything, since each one compared comes from a different source |
| JsValues.Get | repository/src/providers/firebase/repository.service.ts:75 | `obj[k]`: the value of the first field named `k`, undefined when there is none |
| JsValues.Put | repository/src/providers/firebase/repository.service.ts:283-291 | `obj[k] = v`: an existing key keeps its position, a new key goes last (read back by `JsValues.GetPut`) |
| JsValues.Remove | crud/src/crud.controller.ts:88-94 | `delete obj[k]`: every field named `k` is dropped, the others keep their order (read back by `JsValues.GetRemove`) |
| JsValues.Spread | repository/src/providers/firebase/repository.service.ts:63-66 | `{...target, ...source}`: the source fields are assigned onto the target one by one (read back by `JsValues.GetSpread`) |
| JsValues.Split | repository/src/providers/firebase/repository.service.ts:34 | `s.split(sep)`: the maximal separator-free segments, empty ones included (inverse of `JsValues.Join` by `JsValues.JoinSplit`) |
| JsValues.Join | repository/src/providers/firebase/repository.service.ts:34 | `parts.join(sep)`: the reference inverse that `JsValues.JoinSplit` proves `Split` against |
| JsValues.IsFirstMatch | repository/src/providers/firebase/repository.service.ts:286 | what `find` answers: undefined exactly when no record has `key === x`, otherwise the first record that has |
| JsValues.FirstMatchUnique | repository/src/providers/firebase/repository.service.ts:286 | at most one value is `find`'s answer, so `IsFirstMatch` pins the result down completely |
| JsValues.PropertyOf | repository/src/providers/firebase/repository.service.ts:374-378 | `v[key]` throws exactly on null and undefined; an object reads its field, an array its `length` |
| JsValues.FindWhere | repository/src/providers/firebase/repository.service.ts:284-290 | `find(r => r[key] === x)`: undefined exactly when no record matches, otherwise the first matching record |
| JsValues.GetPut | repository/src/providers/firebase/repository.service.ts:283-292 | after `obj[k] = v`, `k` reads `v` and every other key reads as before |
| JsValues.GetRemove | crud/src/crud.controller.ts:88-94 | after `delete obj[k]`, `k` reads undefined and every other key reads as before |
| JsValues.GetSpread | repository/src/providers/firebase/repository.service.ts:63-66 | `{...t, ...s}` reads as `s` where `s` has the key and as `t` elsewhere |
| JsValues.SpreadKeepsTargetPrefix | repository/src/providers/firebase/repository.service.ts:63-66 | a spread keeps the target's keys first, in their order |
| JsValues.SplitNonEmpty | repository/src/providers/firebase/repository.service.ts:34-35 | `split` never returns an empty array |
| JsValues.JoinSplit | repository/src/providers/firebase/repository.service.ts:34 | joining the segments of a split with the separator gives the string back |
| JsValues.SplitNoSeparator | repository/src/providers/firebase/repository.service.ts:34 | a string without the separator splits into itself alone |
| JsValues.SplitConcat | repository/src/providers/firebase/repository.service.ts:34 | splitting `a + sep + b`, where `a` has no separator, gives `a` followed by the segments of `b` |
| JsValues.SplitSegmentsHaveNoSeparator | repository/src/providers/firebase/repository.service.ts:371 | no segment of a split contains the separator |
| Query.FieldPredicate | repository/src/providers/firebase/repository.service.ts:75-85 | a scalar field gives `(key, "==", value)`; an object gives `(key, op of its first key, its first value)`; an array gives an undefined op on its first element; `null`, `{}` and `[]` throw a TypeError |
| Query.Emits | repository/src/providers/firebase/repository.service.ts:75 | the guard `obj[key] && obj[key] != ""`: truthy and not loosely equal to ""; the fields it admits are `Query.Passing` |
| Query.ToWhere | repository/src/providers/firebase/repository.service.ts:72-90 | `toWhere(obj)`: the predicates of the passing fields, in key order, or the first TypeError (meaning in `Query.ToWhereMeaning`) |
| Query.Passing | repository/src/providers/firebase/repository.service.ts:75 | the fields that pass the guard `obj[key] && obj[key] != ""`, in key order |
| Query.ToWhereMeaning | repository/src/providers/firebase/repository.service.ts:72-90 | `toWhere` fails (TypeError) exactly when a passing field holds `{}`; otherwise one predicate per passing field, in key order |
| Query.ToWhereSkipsEmptyValues | repository/src/providers/firebase/repository.service.ts:75 | undefined, null, "", 0, false and [] add no predicate; `{}` as a filter gives none |
| Query.ToOrWhere | repository/src/providers/firebase/repository.service.ts:92-96 | on success one entry per filter object (meaning in `Query.ToOrWhereMeaning`) |
| Query.First | repository/src/providers/firebase/repository.service.ts:94 | `toWhere(obj)[0]`: the first predicate, undefined for none (meaning in `Query.FirstIsNoneIffNonePass`) |
| Query.FirstIsNoneIffNonePass | repository/src/providers/firebase/repository.service.ts:94 | `toWhere(obj)[0]` is undefined exactly when no field of `obj` passes the guard |
| Query.ToOrWhereMeaning | repository/src/providers/firebase/repository.service.ts:92-96 | one entry per filter object, namely the first predicate of its `toWhere`, undefined when it has none; fails exactly when some `toWhere` fails |
| Query.BuildQuery | repository/src/providers/firebase/repository.service.ts:98-112 | succeeds exactly when the `where` and `orWhere` translations do; keeps the base query as a prefix; no options leave the query unchanged |
| Query.AndStage | repository/src/providers/firebase/repository.service.ts:99-101 | the `where` branch: one AND group of the `toWhere` predicates when `where` is given (meaning in `Query.BuildQueryStages`) |
| Query.OrStage | repository/src/providers/firebase/repository.service.ts:103-105 | the `orWhere` branch: one OR group of the `toOrWhere` entries when `orWhere` is given (meaning in `Query.BuildQueryStages`) |
| Query.SelectStage | repository/src/providers/firebase/repository.service.ts:107-109 | the `select` branch: one field selection when `select` is given (meaning in `Query.BuildQueryStages`) |
| Query.BuildQueryStages | repository/src/providers/firebase/repository.service.ts:98-112 | the added stages come in the order where, orWhere, select; each is present exactly when its option is; each holds that option's translation |
| Query.BuildQueryFailsWithTypeError | repository/src/providers/firebase/repository.service.ts:98-105 | every failure of `buildQuery` is a TypeError |
| Query.Serialize | repository/src/providers/firebase/repository.service.ts:63-66 | `{id: doc.id, ...doc.data()}` for one document (meaning in `Query.SerializeReads`) |
| Query.SerializeReads | repository/src/providers/firebase/repository.service.ts:59-70 | a serialized document reads as its data, `id` falling back to the document id (a stored `id` wins), and `id` is its first key |
| Query.SerializeDocs | repository/src/providers/firebase/repository.service.ts:59-70 | one record per document, in order |
| Query.GetRecords | repository/src/providers/firebase/repository.service.ts:152-162 | an untranslatable filter fails with a TypeError before the store is reached; a store failure is passed on unchanged; otherwise the records are the serialized returned documents, one per document, in order |
| Paths.PathToCollectionOrDocument | repository/src/providers/firebase/repository.service.ts:30-57 | the handle's path is the split path; it is a collection exactly when the segment count is odd; the empty-path error only for an empty split |
| Paths.PathAlwaysHasSegments | repository/src/providers/firebase/repository.service.ts:34-39 | the "must not be empty" error cannot fire; the segments join back to the path |
| Paths.SingleSegmentPath | repository/src/providers/firebase/repository.service.ts:34-42 | a path without `/` (the empty path included) is one collection |
| Paths.TwoSegmentPath | repository/src/providers/firebase/repository.service.ts:34-56 | two `/`-free segments joined by `/` split back into exactly those two, an even count (a document) |
| Paths.ThreeSegmentPath | repository/src/providers/firebase/repository.service.ts:34-56 | three `/`-free segments joined by `/` split back into exactly those three, an odd count (a collection) |
| Paths.CollectionPathExample | repository/src/providers/firebase/repository.service.ts:34-56 | "users/u1/posts" has the three segments users, u1, posts |
| Paths.DocumentPathExample | repository/src/providers/firebase/repository.service.ts:34-56 | "users/u1" has the two segments users, u1 |
| Pagination.NormalizePage | repository/src/providers/firebase/repository.service.ts:118 | the page is at least 1; an absent or non-positive page is 1 |
| Pagination.EffectiveLimit | repository/src/providers/firebase/repository.service.ts:119 | the limit defaults to 10 |
| Pagination.CeilDiv | repository/src/providers/firebase/repository.service.ts:130 | `Math.ceil(totalItems / limit)` for a positive limit (meaning in `Pagination.CeilDivBounds`) |
| Pagination.CeilDivBounds | repository/src/providers/firebase/repository.service.ts:130 | `totalPages` pages hold every item and one page fewer does not; zero pages exactly when there are no items |
| Pagination.Fetch | repository/src/providers/firebase/repository.service.ts:139-146 | skipping `offset` documents and taking at most `limit` is the slice `[offset, offset+limit)` |
| Pagination.PageSlice | repository/src/providers/firebase/repository.service.ts:139-146 | a page holds at most `limit` documents |
| Pagination.Pagination | repository/src/providers/firebase/repository.service.ts:114-150 | normalized page and limit, `totalItems` the match count, `totalPages = ceil(totalItems/limit)`, no data past the last page, otherwise the serialized page slice |
| Pagination.InRangeIffOffsetInside | repository/src/providers/firebase/repository.service.ts:132-139 | `page <= totalPages` exactly when the offset falls inside the matches: the early return never hides a record |
| Pagination.PageSizes | repository/src/providers/firebase/repository.service.ts:132-146 | an in-range page is non-empty, and full unless it is the last |
| Pagination.FirstPagesArePrefix | repository/src/providers/firebase/repository.service.ts:139-146 | the first `k` pages in a row are the first `k*limit` matches |
| Pagination.PagesCoverAll | repository/src/providers/firebase/repository.service.ts:130-146 | pages 1..totalPages return every match exactly once, in order |
| Pagination.TwentyFiveDocuments | repository/src/providers/firebase/repository.service.ts:114-150 | 25 matches, 10 per page: 3 pages, page 3 holds 5, page 5 is empty |
| RelationJoin.Linked | repository/src/providers/firebase/repository.service.ts:262-272 | the parents with a truthy local field, in order |
| RelationJoin.ParentFilter | repository/src/providers/firebase/repository.service.ts:260-271 | a parent contributes no filter exactly when its local field is falsy; otherwise one filter keyed by the foreign field |
| RelationJoin.RelationFilters | repository/src/providers/firebase/repository.service.ts:260-272 | at most one filter per parent (meaning in `RelationJoin.RelationFiltersMeaning`) |
| RelationJoin.RelationFiltersMeaning | repository/src/providers/firebase/repository.service.ts:260-272 | one OR filter per parent with a truthy local field, in parent order |
| RelationJoin.ParentFilterTranslates | repository/src/providers/firebase/repository.service.ts:262-277 | a parent's filter becomes one predicate on the foreign field: `in` for an array local field, `==` for a scalar |
| RelationJoin.RelationLookupBranches | repository/src/providers/firebase/repository.service.ts:260-277 | the lookup's OR group has one defined branch per linked parent, in order, with `in` or `==` as above |
| RelationJoin.Matches | repository/src/providers/firebase/repository.service.ts:281-295 | an array local field of length N gets N positions, the i-th the first result with `foreignField === local[i]` or undefined when there is none; any other local value gets the first result with `foreignField === local`, or undefined |
| RelationJoin.AttachRelation | repository/src/providers/firebase/repository.service.ts:282-294 | `entity[collectionLabel] = ...` for one parent (read back by `RelationJoin.AttachRelationReads`) |
| RelationJoin.AttachRelationReads | repository/src/providers/firebase/repository.service.ts:281-295 | the label reads the matches; every other field is unchanged |
| RelationJoin.AttachAll | repository/src/providers/firebase/repository.service.ts:281-295 | every parent is kept, in order, and each gets the label: it reads the parent's matches, every other key reads as before |
| RelationJoin.AttachToEach | repository/src/providers/firebase/repository.service.ts:281-295 | the in-place `map` over the parent array leaves exactly the attached parents |
| RelationJoin.ResolveRelations | repository/src/providers/firebase/repository.service.ts:258-298 | the relations one after the other, stopping at the first failed lookup; every parent is kept |
| RelationJoin.Relations | repository/src/providers/firebase/repository.service.ts:253-302 | the in-place array equals the relations applied one after another; any failure is "Error on relations." |
| RelationJoin.ResolveRelationsKeepsOtherFields | repository/src/providers/firebase/repository.service.ts:258-297 | the join keeps every parent, and only the relations' labels change |
| RelationJoin.JustOneIgnored | repository/src/providers/firebase/repository.service.ts:258-297 | `justOne` changes neither the lookup nor the attachment: plurality follows the local field |
| RelationJoin.TagsExample | repository/src/providers/firebase/repository.service.ts:281-290 | `{id: p1, tagIds: [t1, t2]}` joined on `id` gains `tags: [t1-record, t2-record]` |
| References.ShotRecords | repository/src/providers/firebase/repository.service.ts:314-318 | one record `{id, ...data}` per fetched snapshot, in order |
| References.Label | repository/src/providers/firebase/repository.service.ts:322-327 | the key `doc[refData.collectionLabel]` writes to; an absent label is the key "undefined" (only it changes, by `References.AttachReferenceReads`) |
| References.ShotRecord | repository/src/providers/firebase/repository.service.ts:315-318 | `{id: shot.id, ...shot.data()}`, a missing document giving no data (meaning in `References.ShotRecordId`) |
| References.ShotRecordId | repository/src/providers/firebase/repository.service.ts:314-318 | a fetched record answers to its document id unless its data holds its own `id`; a missing document yields the bare `{id}` |
| References.ResolvePath | repository/src/providers/firebase/repository.service.ts:373-379 | the walk over the path segments (meaning in `References.PathLookupSteps` and `References.ResolvePathAppend`) |
| References.PathLookup | repository/src/providers/firebase/repository.service.ts:370-380 | `getObjectByPath(obj, path)`: the walk over the `.`-segments of `path` |
| References.GetObjectByPath | repository/src/providers/firebase/repository.service.ts:370-380 | the loop computes the path walk: undefined at the first missing step, TypeError through null |
| References.ResolvePathAppend | repository/src/providers/firebase/repository.service.ts:370-380 | walking `a + b` is walking `a` and then `b`, unless `a` failed or stopped at undefined |
| References.PathLookupSteps | repository/src/providers/firebase/repository.service.ts:370-380 | a plain key reads the field; `a.b` reads the nested field, is undefined when `a` is, and throws when `a` is null |
| References.IdsFrom | repository/src/providers/firebase/repository.service.ts:393-402 | a falsy value gives no id, an array all its elements, anything else itself |
| References.IdsOf | repository/src/providers/firebase/repository.service.ts:390-404 | the ids of every parent, in order, or the first lookup's error (meaning in `References.IdsOfAppend` and `References.IdsOfFailsWithTypeError`) |
| References.IdsOfAppend | repository/src/providers/firebase/repository.service.ts:390-404 | ids are collected in parent order: the ids of two runs of parents are concatenated |
| References.IdsOfFailsWithTypeError | repository/src/providers/firebase/repository.service.ts:390-404 | the id collection only ever fails with a TypeError |
| References.ResolvePathFailsWithTypeError | repository/src/providers/firebase/repository.service.ts:374 | a path walk only ever fails with a TypeError |
| References.CollectDocIds | repository/src/providers/firebase/repository.service.ts:390-404 | the push loop yields the ids of every parent in order, arrays flattened, or the first lookup's TypeError |
| References.NestedIds | repository/src/providers/firebase/repository.service.ts:336-362 | at most one id per attached record; none exactly when no record has one (contents in `References.NestedIdsAppend`) |
| References.NestedTarget | repository/src/providers/firebase/repository.service.ts:342-345 | the nested `.doc(...)` call works only on a handle; a path string has none (consequence in `References.NestedPathStringIgnored`) |
| References.HasNestedId | repository/src/providers/firebase/repository.service.ts:339-340 | an attached record takes part in the nested lookup exactly when it is an object with a truthy `nestedDoc[with.field]` (contents in `References.NestedIdsAppend`) |
| References.NestedIdsAppend | repository/src/providers/firebase/repository.service.ts:336-362 | the nested ids are collected record by record, in order: a record with a nested id contributes exactly that id, any other record nothing |
| References.AttachReference | repository/src/providers/firebase/repository.service.ts:320-366 | one parent's part of `getAllData`: the label gets the matches of `doc[field]`, with the nested reference resolved inside them (read back by `References.AttachReferenceReads`) |
| References.ResolveNested | repository/src/providers/firebase/repository.service.ts:331-366 | the nested lookup over the attached records (what it fetches and attaches in `References.ResolveNestedAttaches` and `References.ResolveNestedOneLevel`, when it is left undone in `References.ResolveNestedUndone`, shape kept by `References.ResolveNestedKeepsShape`) |
| References.NestedCandidates | repository/src/providers/firebase/repository.service.ts:336-351 | the attached records the nested lookup looks into: every position of an array, or the single record when it is truthy |
| References.ResolveNestedAttaches | repository/src/providers/firebase/repository.service.ts:336-364 | when the lookup runs, it fetches exactly the nested ids from the nested collection; each record with a nested id gets the nested reference attached in turn, every other record is kept; a single attached record is the one with the id |
| References.ResolveNestedOneLevel | repository/src/providers/firebase/repository.service.ts:320-364 | one level of nesting: a record with a nested id gets, under the nested label, the first fetched record whose id matches its nested field |
| References.ResolveNestedUndone | repository/src/providers/firebase/repository.service.ts:336-365 | the attached value is kept when a position is undefined, no record has a nested id, the nested collection is a path string, or the fetch fails |
| References.AttachReferenceReads | repository/src/providers/firebase/repository.service.ts:320-366 | only the label changes; without nesting it holds the records matched against `doc[field]`, mirroring its shape; with nesting it holds those records after the nested lookup |
| References.NestedPathStringIgnored | repository/src/providers/firebase/repository.service.ts:342-347 | a nested reference whose collection is a path string leaves the attached records as they are |
| References.ResolveNestedKeepsShape | repository/src/providers/firebase/repository.service.ts:332-366 | nested resolution keeps an attached array's length and its undefined positions |
| References.DottedFieldAttachesUndefined | repository/src/providers/firebase/repository.service.ts:320-330 | a field that is not a plain key of the parent attaches undefined |
| References.DottedFieldCollectedNotAttached | repository/src/providers/firebase/repository.service.ts:320-404 | for `{a: {b: id}}` and field `a.b`, the id is collected, yet the label reads undefined |
| References.TopLevelTarget | repository/src/providers/firebase/repository.service.ts:383-400 | a handle, or a path string with an odd number of segments, is a collection to fetch from; a document path has none |
| References.ResolveReference | repository/src/providers/firebase/repository.service.ts:382-409 | a failed id lookup is passed on; no ids leave the parents as they are; with ids, a document target is a TypeError, a failed fetch is passed on, and otherwise the fetch uses exactly the collected ids and every parent gets `AttachReference` of the fetched records |
| References.ResolveReferences | repository/src/providers/firebase/repository.service.ts:382-409 | the references one after the other, stopping at the first error; every parent is kept |
| References.AttachReferenceToEach | repository/src/providers/firebase/repository.service.ts:320-367 | the in-place `forEach` over the parents leaves each one with `AttachReference` applied |
| References.With | repository/src/providers/firebase/repository.service.ts:304-412 | the in-place array and the outcome equal the references applied one after another |
| References.ResolveReferencesKeepsOtherFields | repository/src/providers/firebase/repository.service.ts:382-409 | references keep every parent, and only their labels change |
| References.DocumentPathReference | repository/src/providers/firebase/repository.service.ts:383-399 | a collection path naming a document fails (no `doc` method) as soon as there is an id, and does nothing otherwise |
| References.GetRelations | repository/src/providers/firebase/repository.service.ts:238-251 | with neither option nothing changes; relations first: a failure leaves the records as the relations left them and reports "Error on relations."; on success the references then apply to the related records, when given; without relations the references alone apply |
| CrudController.ApplyHook | crud/src/crud.controller.ts:111-113 | without a hook the value passes through unchanged |
| CrudController.SearchQuery | crud/src/crud.controller.ts:96-102 | one `{key: src}` per search key when `src` is truthy and keys are configured (meaning in `CrudController.FindAllQueryMeaning`) |
| CrudController.FindAllWhere | crud/src/crud.controller.ts:86-94 | the query parameters after `page`, `limit` and `src` are deleted |
| CrudController.FindAllQuery | crud/src/crud.controller.ts:104-108 | `{where: queryParams, orWhere: searchQuery}` (meaning in `CrudController.FindAllQueryMeaning`) |
| CrudController.FindAll | crud/src/crud.controller.ts:84-116 | the repository paginates the built query, after `beforeFindAll` when given; a failing hook is reported |
| CrudController.FindAllQueryMeaning | crud/src/crud.controller.ts:86-108 | the query holds exactly `where` and `orWhere`; `where` is the parameters without `page`, `limit` and `src`; `orWhere` holds one `{key: src}` per search key, in order, and is empty without a truthy `src` or search keys |
| CrudController.FindAllSearchExample | crud/src/crud.controller.ts:96-102 | `src=ana` with keys name, email gives `[{name: ana}, {email: ana}]` |
| CrudController.FindOneQuery | crud/src/crud.controller.ts:123-128 | `{where: {id, ...queryParams}}` (read back by `CrudController.FindOneQueryReads`) |
| CrudController.FindOne | crud/src/crud.controller.ts:118-139 | a failing hook or repository call is passed on; a falsy repository result is NotFound "Item not found"; otherwise `{data}` with truthy data |
| CrudController.FindOneQueryReads | crud/src/crud.controller.ts:123-128 | `where` reads the query parameters, and `id` falls back to the path id, so a query parameter `id` overrides it |
| CrudController.UpdateQuery | crud/src/crud.controller.ts:158-161 | `{where: {id}, data: dto}` (target proved by `CrudController.UpdateTargetsPathId`) |
| CrudController.UpdateDto | crud/src/crud.controller.ts:154-156 | without `beforeUpdate` the body is unchanged |
| CrudController.Update | crud/src/crud.controller.ts:141-165 | the repository gets `{where: {id}, data: body}`; a falsy result is NotFound "Item not found for update"; otherwise the success message and the data |
| CrudController.UpdateTargetsPathId | crud/src/crud.controller.ts:158-161 | the update targets the path id whatever the body holds |
| CrudController.NoIds | crud/src/crud.controller.ts:169 | `!ids || ids.length <= 0` (cases in `CrudController.NoIdsCases`) |
| CrudController.AtMostZero | crud/src/crud.controller.ts:169 | `length <= 0` for the `length` values the model has: a number compares as itself, undefined as NaN (false), null as 0 (true), a boolean as 0 or 1; a string, array or object `length` is taken as not `<= 0` (see the `CrudController.Delete` line under Left out; cases in `CrudController.NoIdsCases`) |
| CrudController.Display | crud/src/crud.controller.ts:183 | `${v}` in a template literal: decimal numerals, arrays joined with commas (null and undefined elements as empty), `[object Object]` |
| CrudController.DeleteQuery | crud/src/crud.controller.ts:178-180 | `{where: {id: ids}}` |
| CrudController.NatToString | crud/src/crud.controller.ts:183 | the count in the message is a non-empty numeral |
| CrudController.Delete | crud/src/crud.controller.ts:167-184 | absent or empty ids are BadRequest "No ids found"; otherwise the repository gets `{where: {id: ids}}` (after `beforeDelete`); a failing hook or repository call is passed on; an undefined or null result is a TypeError; any other result's `length` (an array's or string's length, an object's `length` field) is rendered into the message |
| CrudController.DeleteGuardFirst | crud/src/crud.controller.ts:169-171 | the guard depends on the ids alone, before any hook or repository call |
| CrudController.NoIdsCases | crud/src/crud.controller.ts:169 | undefined, null, "" and [] are rejected; a non-empty array or id string is not |
| CrudController.DeleteMessageExample | crud/src/crud.controller.ts:178-183 | two deleted records give "2 items deleted successfully" |
| CrudController.NatToStringRoundTrip | crud/src/crud.controller.ts:183 | the numeral reads back as the count, with no leading zero |

## Left out

- The Firestore SDK is not modelled. This covers query execution (what `where`, `Filter.or` and `select` match), the `created_at desc` order, `count()`, collection and document handles, and `BulkWriter`. The store is a function parameter, and pagination takes the ordered matches as a sequence.
- Pagination.Pagination: requires a positive limit. `Number(...)` of a non-numeric, zero or fractional page or limit gives floating-point values (NaN, Infinity), and those are not modelled.
- Pagination.Pagination: the count and the page fetch are two round trips in the source. The model reads both from one sequence, so a concurrent write between them is not modelled.
- `updateBulk`, `getDocRef`, and the controller's `create` are not part of this model. They are SDK side effects, timestamps and a pass-through.
- The asynchronous execution is not modelled:
  - The repository calls and hooks are synchronous functions returning a `Result`.
  - The request object that `beforeFindAll`, `beforeFindOne` and `beforeUpdate` receive is not passed.
  - `instanceToPlain` is the identity.
- References.ResolveNested: a nested reference is resolved to completion before `with` returns. The source starts it in an async `forEach` callback without awaiting it, and a failure inside it becomes an unhandled rejection. In the model such a failure leaves the records unchanged.
- Records are values: a record attached to two parents is two copies. The source caches the resolved collection handle by writing it back into the reference declaration; that is not modelled.
- SDK validation of path segments and document ids (`doc(id)` with a non-string or empty id) is not modelled. Ids reach `GetAll` as they are.
- Object enumeration order is insertion order. The JavaScript rule that integer-like keys come first is not modelled, and inherited properties such as `toString` read as undefined.
- Numbers are integers.
- CrudController.Delete: when `ids` is a plain object whose own `length` is a string, array or object, `length <= 0` is taken as false. JavaScript's numeric conversion of that operand is not modelled.
- The `with` option is not declared in `QueryOptions` (it is commented out there). `References.GetRelations` takes it as a separate parameter.
