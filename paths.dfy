/** Reading a `/`-separated collection path (`pathToCollectionOrDocument`):
    segments alternate collection name and document id, starting with a
    collection. */
module Paths {
  import opened JsValues

  /** A collection or document handle, identified by the segments leading to it. */
  datatype Ref = CollectionRef(path: seq<string>) | DocumentRef(path: seq<string>)

  const EmptyPathMessage := "Collection path must not be empty."

  /** `pathToCollectionOrDocument(db, collectionPath)`: the handle starts at
      the collection named by the first segment; each later segment at index
      `i` of the rest descends to a document when `i` is even and to a
      sub-collection when `i` is odd. */
  method PathToCollectionOrDocument(collectionPath: string) returns (r: Result<Ref>)
    ensures |Split(collectionPath, '/')| == 0 ==> r == Failure(InternalServerError(EmptyPathMessage))
    ensures |Split(collectionPath, '/')| > 0 ==>
      && r.Success?
      && r.value.path == Split(collectionPath, '/')
      && (r.value.CollectionRef? <==> |Split(collectionPath, '/')| % 2 == 1)
  {
    var pathArr := Split(collectionPath, '/');
    if |pathArr| == 0 {
      return Failure(InternalServerError(EmptyPathMessage));
    }
    var currentRef := CollectionRef([pathArr[0]]);
    var rest := pathArr[1..];
    for i := 0 to |rest|
      invariant currentRef.path == pathArr[..i + 1]
      invariant currentRef.CollectionRef? <==> i % 2 == 0
    {
      var isDocument := i % 2 == 0;
      if isDocument {
        currentRef := DocumentRef(currentRef.path + [rest[i]]);
      } else {
        currentRef := CollectionRef(currentRef.path + [rest[i]]);
      }
      assert pathArr[..i + 2] == pathArr[..i + 1] + [rest[i]];
    }
    assert pathArr[..|rest| + 1] == pathArr;
    return Success(currentRef);
  }

  /** The empty-path error cannot be raised: `split` always yields at least
      one segment, and joining the segments gives the path back. */
  lemma PathAlwaysHasSegments(collectionPath: string)
    ensures |Split(collectionPath, '/')| >= 1
    ensures Join(Split(collectionPath, '/'), '/') == collectionPath
  {
    SplitNonEmpty(collectionPath, '/');
    JoinSplit(collectionPath, '/');
  }

  /** A path without `/` names a collection; `""` names the collection "". */
  lemma SingleSegmentPath(collectionPath: string)
    requires forall i :: 0 <= i < |collectionPath| ==> collectionPath[i] != '/'
    ensures Split(collectionPath, '/') == [collectionPath]
    ensures |Split(collectionPath, '/')| % 2 == 1
  {
    SplitNoSeparator(collectionPath, '/');
  }

  /** Segments `a`, `b` joined by `/` split back into `[a, b]`. */
  lemma TwoSegmentPath(a: string, b: string)
    requires forall i :: 0 <= i < |a| ==> a[i] != '/'
    requires forall i :: 0 <= i < |b| ==> b[i] != '/'
    ensures Split(a + "/" + b, '/') == [a, b]
    ensures |Split(a + "/" + b, '/')| % 2 == 0
  {
    SplitConcat(a, b, '/');
    SplitNoSeparator(b, '/');
  }

  /** Segments `a`, `b`, `c` joined by `/` split back into `[a, b, c]`. */
  lemma ThreeSegmentPath(a: string, b: string, c: string)
    requires forall i :: 0 <= i < |a| ==> a[i] != '/'
    requires forall i :: 0 <= i < |b| ==> b[i] != '/'
    requires forall i :: 0 <= i < |c| ==> c[i] != '/'
    ensures Split(a + "/" + b + "/" + c, '/') == [a, b, c]
    ensures |Split(a + "/" + b + "/" + c, '/')| % 2 == 1
  {
    assert a + "/" + b + "/" + c == a + ['/'] + (b + "/" + c);
    SplitConcat(a, b + "/" + c, '/');
    TwoSegmentPath(b, c);
  }

  /** "users/u1/posts" names a collection. */
  lemma CollectionPathExample()
    ensures Split("users/u1/posts", '/') == ["users", "u1", "posts"]
  {
    assert "users/u1/posts" == "users" + "/" + "u1" + "/" + "posts";
    ThreeSegmentPath("users", "u1", "posts");
  }

  /** "users/u1" names a document. */
  lemma DocumentPathExample()
    ensures Split("users/u1", '/') == ["users", "u1"]
  {
    assert "users/u1" == "users" + "/" + "u1";
    TwoSegmentPath("users", "u1");
  }
}
