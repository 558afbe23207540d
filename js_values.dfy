/** JavaScript values as the repository layer sees them: records read from the
    store, filter objects and query parameters. A JS object is an ordered list
    of fields (its own enumeration order); reading a missing key yields
    `undefined`. Numbers are integers here (see README, "Left out"). */
module JsValues {

  datatype Option<+T> = None | Some(value: T)

  /** The failures the core raises or lets propagate. */
  datatype Error =
    | TypeError                          // a JS TypeError (destructuring or reading a property of null)
    | InternalServerError(message: string)
    | NotFound(message: string)
    | BadRequest(message: string)
    | StoreError(message: string)        // a failure reported by the document store

  datatype Result<+T> = Success(value: T) | Failure(error: Error) {
    predicate IsFailure() { Failure? }
    function PropagateFailure<U>(): Result<U> requires Failure? { Failure(error) }
    function Extract(): T requires Success? { value }
  }

  datatype Value =
    | Undefined
    | Null
    | Bool(b: bool)
    | Num(n: int)
    | Str(s: string)
    | Arr(items: seq<Value>)
    | Obj(fields: seq<Field>)

  datatype Field = Field(key: string, val: Value)

  /** The own fields of a plain object, in enumeration order. */
  type Entries = seq<Field>

  // ---------------------------------------------------------------------
  // Truthiness, `typeof`, loose and strict equality

  /** `!!v` */
  predicate Truthy(v: Value) {
    match v
    case Undefined => false
    case Null => false
    case Bool(b) => b
    case Num(n) => n != 0
    case Str(s) => s != ""
    case Arr(_) => true
    case Obj(_) => true
  }

  /** `typeof v == "object"` (arrays and null included). */
  predicate IsObjectType(v: Value) {
    v.Null? || v.Arr? || v.Obj?
  }

  /** Whether `String(v)` is empty when `v` is an element of an array being
      joined (`Array.prototype.join` writes null and undefined as ""). */
  predicate JoinsToEmpty(v: Value) {
    match v
    case Undefined => true
    case Null => true
    case Str(s) => s == ""
    case Arr(items) => |items| == 0 || (|items| == 1 && JoinsToEmpty(items[0]))
    case Bool(_) => false
    case Num(_) => false
    case Obj(_) => false   // "[object Object]"
  }

  /** `v == ""` under JavaScript's abstract (loose) equality. */
  predicate LooselyEqualsEmptyString(v: Value) {
    match v
    case Undefined => false
    case Null => false
    case Bool(b) => !b                // false -> 0 == 0
    case Num(n) => n == 0
    case Str(s) => s == ""
    case Arr(_) => JoinsToEmpty(v)    // compared through its string form
    case Obj(_) => false
  }

  /** `v === w`. Arrays and objects compare by identity; every array or
      object compared by the core comes from a different source than the
      value it is compared with, so they are never identical. */
  predicate StrictEquals(v: Value, w: Value) {
    match (v, w)
    case (Undefined, Undefined) => true
    case (Null, Null) => true
    case (Bool(x), Bool(y)) => x == y
    case (Num(x), Num(y)) => x == y
    case (Str(x), Str(y)) => x == y
    case (_, _) => false
  }

  /** `Object.entries(v)[0]` for a value whose `typeof` is "object"; None
      when it has no entries (reading `[0]` then gives undefined). */
  function FirstEntry(v: Value): (r: Option<Field>)
    ensures v.Obj? && |v.fields| > 0 ==> r == Some(v.fields[0])
    ensures v.Arr? && |v.items| > 0 ==> r == Some(Field("0", v.items[0]))
    ensures r.None? <==> !(v.Obj? || v.Arr?) || v == Obj([]) || v == Arr([])
  {
    match v
    case Obj(fs) => if |fs| > 0 then Some(fs[0]) else None
    case Arr(items) => if |items| > 0 then Some(Field("0", items[0])) else None
    case _ => None
  }

  // ---------------------------------------------------------------------
  // Plain objects: read, write, delete, spread

  function Keys(e: Entries): (ks: seq<string>)
    ensures |ks| == |e| && forall i :: 0 <= i < |e| ==> ks[i] == e[i].key
  {
    if e == [] then [] else [e[0].key] + Keys(e[1..])
  }

  predicate Has(e: Entries, k: string) {
    k in Keys(e)
  }

  /** A JS object never holds a key twice. */
  predicate DistinctKeys(e: Entries) {
    forall i, j :: 0 <= i < j < |e| ==> e[i].key != e[j].key
  }

  /** `obj[k]`: the value under `k`, `undefined` when absent. */
  function Get(e: Entries, k: string): Value {
    if e == [] then Undefined
    else if e[0].key == k then e[0].val
    else Get(e[1..], k)
  }

  /** `obj[k] = v`: an existing key keeps its position, a new key goes last. */
  function Put(e: Entries, k: string, v: Value): Entries {
    if e == [] then [Field(k, v)]
    else if e[0].key == k then [Field(k, v)] + e[1..]
    else [e[0]] + Put(e[1..], k, v)
  }

  /** `delete obj[k]` */
  function Remove(e: Entries, k: string): Entries {
    if e == [] then []
    else if e[0].key == k then Remove(e[1..], k)
    else [e[0]] + Remove(e[1..], k)
  }

  /** `{...target, ...source}`: the fields of `source` written over `target`
      one by one, in order. */
  function Spread(target: Entries, source: Entries): Entries
    decreases |source|
  {
    if source == [] then target
    else Spread(Put(target, source[0].key, source[0].val), source[1..])
  }

  lemma {:induction false} HasGet(e: Entries, k: string)
    ensures !Has(e, k) ==> Get(e, k) == Undefined
    ensures Has(e, k) ==> exists i :: 0 <= i < |e| && e[i].key == k && Get(e, k) == e[i].val
  {
    if e != [] && e[0].key != k {
      HasGet(e[1..], k);
      if Has(e, k) {
        var j :| 0 <= j < |e[1..]| && e[1..][j].key == k && Get(e[1..], k) == e[1..][j].val;
        assert e[j + 1].key == k;
      }
    }
  }

  /** Writing a key changes what that key reads and nothing else. */
  lemma {:induction false} GetPut(e: Entries, k: string, v: Value, j: string)
    ensures Get(Put(e, k, v), j) == if j == k then v else Get(e, j)
  {
    if e != [] && e[0].key != k {
      GetPut(e[1..], k, v, j);
    }
  }

  /** Writing a key keeps the key order; a new key is appended. */
  lemma {:induction false} KeysPut(e: Entries, k: string, v: Value)
    ensures Keys(Put(e, k, v)) == if Has(e, k) then Keys(e) else Keys(e) + [k]
  {
    if e != [] && e[0].key != k {
      KeysPut(e[1..], k, v);
    }
  }

  /** After `delete obj[k]` the key reads undefined and the rest is intact. */
  lemma {:induction false} GetRemove(e: Entries, k: string, j: string)
    ensures Get(Remove(e, k), j) == if j == k then Undefined else Get(e, j)
  {
    if e != [] {
      GetRemove(e[1..], k, j);
    }
  }

  /** A spread reads as the source where the source has the key, and as the
      target elsewhere. */
  lemma {:induction false} GetSpread(target: Entries, source: Entries, j: string)
    requires DistinctKeys(source)
    ensures Get(Spread(target, source), j) == if Has(source, j) then Get(source, j) else Get(target, j)
    decreases |source|
  {
    if source != [] {
      var t' := Put(target, source[0].key, source[0].val);
      assert DistinctKeys(source[1..]);
      GetSpread(t', source[1..], j);
      GetPut(target, source[0].key, source[0].val, j);
      if source[0].key == j {
        assert forall i :: 0 <= i < |source[1..]| ==> source[1..][i].key != j;
      }
    }
  }

  /** A spread keeps the target's key order and appends the source's new keys. */
  lemma {:induction false} SpreadKeepsTargetPrefix(target: Entries, source: Entries)
    ensures |Spread(target, source)| >= |target|
    ensures Keys(Spread(target, source))[..|target|] == Keys(target)
    decreases |source|
  {
    if source != [] {
      var t' := Put(target, source[0].key, source[0].val);
      KeysPut(target, source[0].key, source[0].val);
      SpreadKeepsTargetPrefix(t', source[1..]);
      assert Keys(t')[..|target|] == Keys(target);
    }
  }

  // ---------------------------------------------------------------------
  // Property access on any value: `v[key]`

  predicate IsDigit(c: char) { '0' <= c <= '9' }

  /** The keys JS treats as array indices: decimal numerals without leading zeros. */
  predicate IsCanonicalIndex(key: string) {
    |key| > 0 && (forall i :: 0 <= i < |key| ==> IsDigit(key[i])) && (key[0] != '0' || |key| == 1)
  }

  function DigitsValue(key: string): nat
    requires forall i :: 0 <= i < |key| ==> IsDigit(key[i])
  {
    if key == [] then 0
    else
      assert IsDigit(key[|key| - 1]);
      10 * DigitsValue(key[..|key| - 1]) + (key[|key| - 1] as int - '0' as int)
  }

  /** `v[key]`: own fields of objects, `length` and indices of arrays and
      strings; reading a property of null or undefined throws a TypeError. */
  function PropertyOf(v: Value, key: string): (r: Result<Value>)
    ensures r.Failure? <==> v.Undefined? || v.Null?
    ensures v.Obj? ==> r == Success(Get(v.fields, key))
    ensures v.Arr? && key == "length" ==> r == Success(Num(|v.items|))
  {
    match v
    case Undefined => Failure(TypeError)
    case Null => Failure(TypeError)
    case Obj(fs) => Success(Get(fs, key))
    case Arr(items) =>
      if key == "length" then Success(Num(|items|))
      else if IsCanonicalIndex(key) && DigitsValue(key) < |items| then Success(items[DigitsValue(key)])
      else Success(Undefined)
    case Str(s) =>
      if key == "length" then Success(Num(|s|))
      else if IsCanonicalIndex(key) && DigitsValue(key) < |s| then Success(Str([s[DigitsValue(key)]]))
      else Success(Undefined)
    case Bool(_) => Success(Undefined)
    case Num(_) => Success(Undefined)
  }

  // ---------------------------------------------------------------------
  // `Array.prototype.find` over records

  /** `r` is what `find` answers: undefined when no record has `key === x`,
      otherwise the first record that has. */
  predicate IsFirstMatch(records: seq<Entries>, key: string, x: Value, r: Value) {
    && (r == Undefined <==> forall j :: 0 <= j < |records| ==> !StrictEquals(Get(records[j], key), x))
    && (r != Undefined ==>
      exists j :: 0 <= j < |records| && r == Obj(records[j]) && StrictEquals(Get(records[j], key), x)
        && forall m :: 0 <= m < j ==> !StrictEquals(Get(records[m], key), x))
  }

  /** At most one value is the answer of `find`. */
  lemma FirstMatchUnique(records: seq<Entries>, key: string, x: Value, r1: Value, r2: Value)
    requires IsFirstMatch(records, key, x, r1) && IsFirstMatch(records, key, x, r2)
    ensures r1 == r2
  {
    if r1 != Undefined {
      var j1 :| 0 <= j1 < |records| && r1 == Obj(records[j1]) && StrictEquals(Get(records[j1], key), x)
        && forall m :: 0 <= m < j1 ==> !StrictEquals(Get(records[m], key), x);
      var j2 :| 0 <= j2 < |records| && r2 == Obj(records[j2]) && StrictEquals(Get(records[j2], key), x)
        && forall m :: 0 <= m < j2 ==> !StrictEquals(Get(records[m], key), x);
      assert j1 == j2;
    }
  }

  /** `records.find(r => r[key] === x)`, the found record as an object value. */
  function FindWhere(records: seq<Entries>, key: string, x: Value): (r: Value)
    ensures r == Undefined <==> forall j :: 0 <= j < |records| ==> !StrictEquals(Get(records[j], key), x)
    ensures r != Undefined ==>
      exists j :: 0 <= j < |records| && r == Obj(records[j]) && StrictEquals(Get(records[j], key), x)
        && forall m :: 0 <= m < j ==> !StrictEquals(Get(records[m], key), x)
  {
    if records == [] then Undefined
    else if StrictEquals(Get(records[0], key), x) then Obj(records[0])
    else
      var r := FindWhere(records[1..], key, x);
      assert forall j :: 1 <= j < |records| ==> records[1..][j - 1] == records[j];
      r
  }

  // ---------------------------------------------------------------------
  // `String.prototype.split` with a one-character separator, and its inverse

  /** Splitting the rest of a string while `cur` holds the segment read so far. */
  function SplitFrom(s: string, sep: char, cur: string): seq<string>
    decreases |s|
  {
    if s == [] then [cur]
    else if s[0] == sep then [cur] + SplitFrom(s[1..], sep, "")
    else SplitFrom(s[1..], sep, cur + [s[0]])
  }

  /** `s.split(sep)` */
  function Split(s: string, sep: char): seq<string> {
    SplitFrom(s, sep, "")
  }

  /** `parts.join(sep)` */
  function Join(parts: seq<string>, sep: char): string {
    if |parts| == 0 then ""
    else if |parts| == 1 then parts[0]
    else parts[0] + [sep] + Join(parts[1..], sep)
  }

  /** `split` never returns an empty array. */
  lemma {:induction false} SplitFromNonEmpty(s: string, sep: char, cur: string)
    ensures |SplitFrom(s, sep, cur)| >= 1
    decreases |s|
  {
    if s != [] {
      if s[0] == sep {
        SplitFromNonEmpty(s[1..], sep, "");
      } else {
        SplitFromNonEmpty(s[1..], sep, cur + [s[0]]);
      }
    }
  }

  lemma SplitNonEmpty(s: string, sep: char)
    ensures |Split(s, sep)| >= 1
  {
    SplitFromNonEmpty(s, sep, "");
  }

  lemma {:induction false} JoinSplitFrom(s: string, sep: char, cur: string)
    ensures Join(SplitFrom(s, sep, cur), sep) == cur + s
    decreases |s|
  {
    if s != [] {
      if s[0] == sep {
        JoinSplitFrom(s[1..], sep, "");
        SplitFromNonEmpty(s[1..], sep, "");
        var rest := SplitFrom(s[1..], sep, "");
        assert ([cur] + rest)[1..] == rest;
        assert s == [s[0]] + s[1..];
      } else {
        JoinSplitFrom(s[1..], sep, cur + [s[0]]);
        assert s == [s[0]] + s[1..];
      }
    }
  }

  /** Joining the segments of a split gives back the string. */
  lemma JoinSplit(s: string, sep: char)
    ensures Join(Split(s, sep), sep) == s
  {
    JoinSplitFrom(s, sep, "");
  }

  lemma {:induction false} SplitFromNoSeparator(s: string, sep: char, cur: string)
    requires forall i :: 0 <= i < |s| ==> s[i] != sep
    ensures SplitFrom(s, sep, cur) == [cur + s]
    decreases |s|
  {
    if s != [] {
      SplitFromNoSeparator(s[1..], sep, cur + [s[0]]);
      assert (cur + [s[0]]) + s[1..] == cur + s;
    } else {
      assert cur + s == cur;
    }
  }

  /** A string without the separator splits into itself alone. */
  lemma SplitNoSeparator(s: string, sep: char)
    requires forall i :: 0 <= i < |s| ==> s[i] != sep
    ensures Split(s, sep) == [s]
  {
    SplitFromNoSeparator(s, sep, "");
    assert "" + s == s;
  }

  lemma {:induction false} SplitFromConcat(a: string, b: string, sep: char, cur: string)
    requires forall i :: 0 <= i < |a| ==> a[i] != sep
    ensures SplitFrom(a + [sep] + b, sep, cur) == [cur + a] + SplitFrom(b, sep, "")
    decreases |a|
  {
    if a == [] {
      assert a + [sep] + b == [sep] + b;
      assert cur + a == cur;
    } else {
      assert (a + [sep] + b)[1..] == a[1..] + [sep] + b;
      SplitFromConcat(a[1..], b, sep, cur + [a[0]]);
      assert (cur + [a[0]]) + a[1..] == cur + a;
    }
  }

  /** The first segment ends at the first separator. */
  lemma SplitConcat(a: string, b: string, sep: char)
    requires forall i :: 0 <= i < |a| ==> a[i] != sep
    ensures Split(a + [sep] + b, sep) == [a] + Split(b, sep)
  {
    SplitFromConcat(a, b, sep, "");
    assert "" + a == a;
  }

  lemma {:induction false} SplitFromSegmentsHaveNoSeparator(s: string, sep: char, cur: string)
    requires forall i :: 0 <= i < |cur| ==> cur[i] != sep
    ensures forall p, i :: p in SplitFrom(s, sep, cur) && 0 <= i < |p| ==> p[i] != sep
    decreases |s|
  {
    if s != [] {
      if s[0] == sep {
        SplitFromSegmentsHaveNoSeparator(s[1..], sep, "");
      } else {
        SplitFromSegmentsHaveNoSeparator(s[1..], sep, cur + [s[0]]);
      }
    }
  }

  /** No segment of a split contains the separator. */
  lemma SplitSegmentsHaveNoSeparator(s: string, sep: char)
    ensures forall p, i :: p in Split(s, sep) && 0 <= i < |p| ==> p[i] != sep
  {
    SplitFromSegmentsHaveNoSeparator(s, sep, "");
  }
}
