/** Offset pagination (`pagination` of the Firestore repository service).
    The filtered query is represented by the sequence of documents it
    matches, already in the store's `created_at desc` order; the count query
    is its length and the page fetch is a slice of it. */
module Pagination {
  import opened JsValues
  import opened Query

  datatype PaginationOptions = PaginationOptions(page: Option<int>, limit: Option<int>)

  datatype PaginatedData = PaginatedData(data: seq<Entries>, totalItems: nat, totalPages: nat, page: int, limit: int)

  const DefaultLimit := 10

  /** The limits the arithmetic below is defined for. */
  predicate ValidOptions(option: PaginationOptions) {
    option.limit.Some? ==> option.limit.value > 0
  }

  /** `Number(option?.page ?? 1) <= 0 ? 1 : Number(option?.page ?? 1)` */
  function NormalizePage(page: Option<int>): (p: int)
    ensures p >= 1
    ensures page.Some? && page.value >= 1 ==> p == page.value
    ensures page.None? || page.value <= 0 ==> p == 1
  {
    var requested := if page.Some? then page.value else 1;
    if requested <= 0 then 1 else requested
  }

  /** `Number(option?.limit ?? 10)` */
  function EffectiveLimit(limit: Option<int>): (l: int)
    ensures limit.None? ==> l == DefaultLimit
    ensures limit.Some? ==> l == limit.value
  {
    if limit.Some? then limit.value else DefaultLimit
  }

  /** `Math.ceil(n / d)`: the least number of pages of `d` items holding `n` items. */
  function CeilDiv(n: nat, d: nat): nat
    requires d > 0
  {
    (n + d - 1) / d
  }

  /** `CeilDiv(n, d)` pages of `d` hold the `n` items, one page fewer does not. */
  lemma CeilDivBounds(n: nat, d: nat)
    requires d > 0
    ensures CeilDiv(n, d) * d >= n
    ensures CeilDiv(n, d) == 0 || (CeilDiv(n, d) - 1) * d < n
    ensures n == 0 <==> CeilDiv(n, d) == 0
  {
  }

  function Min(a: int, b: int): int { if a <= b then a else b }

  /** The documents a fetch skipping `(page-1)*limit` and taking `limit` returns. */
  function PageSlice<T>(items: seq<T>, page: int, limit: int): (r: seq<T>)
    requires page >= 1 && limit > 0
    ensures |r| <= limit
  {
    Fetch(items, (page - 1) * limit, limit)
  }

  /** `query.offset(offset).limit(limit).get()` over the ordered matches:
      skips `offset` documents and returns at most `limit` of the rest. */
  function Fetch<T>(items: seq<T>, offset: int, limit: nat): (r: seq<T>)
    requires offset >= 0
    ensures |r| <= limit
    ensures offset < |items| ==> r == items[offset .. Min(offset + limit, |items|)]
    ensures offset >= |items| ==> r == []
  {
    if offset >= |items| then [] else items[offset .. Min(offset + limit, |items|)]
  }

  /** `pagination(query, option)` */
  method Pagination(matching: seq<Doc>, option: PaginationOptions) returns (paginateData: PaginatedData)
    requires ValidOptions(option)
    ensures paginateData.page == NormalizePage(option.page)
    ensures paginateData.limit == EffectiveLimit(option.limit)
    ensures paginateData.totalItems == |matching|
    ensures paginateData.totalPages == CeilDiv(|matching|, paginateData.limit)
    ensures paginateData.page > paginateData.totalPages ==> paginateData.data == []
    ensures paginateData.page <= paginateData.totalPages ==>
      paginateData.data == SerializeDocs(PageSlice(matching, paginateData.page, paginateData.limit))
  {
    var page := NormalizePage(option.page);
    var limit := EffectiveLimit(option.limit);
    paginateData := PaginatedData([], 0, 0, page, limit);
    paginateData := paginateData.(totalItems := |matching|);
    paginateData := paginateData.(totalPages := CeilDiv(paginateData.totalItems, limit));
    var isInRange := page <= paginateData.totalPages;
    if !isInRange {
      paginateData := paginateData.(data := []);
      return;
    }
    MulNonNegative(page - 1, limit);
    var offset := (page - 1) * limit;
    InRangeIffOffsetInside(|matching|, page, limit);
    var snapshot := Fetch(matching, offset, limit);
    paginateData := paginateData.(data := SerializeDocs(snapshot));
  }

  /** The out-of-range check holds exactly when the fetch would skip every
      document: returning early never hides a record. */
  lemma InRangeIffOffsetInside(n: nat, page: int, limit: int)
    requires page >= 1 && limit > 0
    ensures page <= CeilDiv(n, limit) <==> (page - 1) * limit < n
  {
    var q := CeilDiv(n, limit);
    CeilDivBounds(n, limit);
    if page <= q {
      assert (page - 1) * limit <= (q - 1) * limit by {
        MulMonotone(page - 1, q - 1, limit);
      }
    } else {
      assert q * limit <= (page - 1) * limit by {
        MulMonotone(q, page - 1, limit);
      }
    }
  }

  lemma MulNonNegative(a: int, c: int)
    requires a >= 0 && c >= 0
    ensures a * c >= 0
  {
  }

  lemma MulMonotone(a: int, b: int, c: int)
    requires a <= b && c >= 0
    ensures a * c <= b * c
  {
  }

  /** An in-range page is non-empty and holds `limit` documents unless it is the last. */
  lemma PageSizes(items: seq<Doc>, page: int, limit: int)
    requires page >= 1 && limit > 0 && page <= CeilDiv(|items|, limit)
    ensures 1 <= |PageSlice(items, page, limit)| <= limit
    ensures page < CeilDiv(|items|, limit) ==> |PageSlice(items, page, limit)| == limit
  {
    InRangeIffOffsetInside(|items|, page, limit);
    if page < CeilDiv(|items|, limit) {
      InRangeIffOffsetInside(|items|, page + 1, limit);
      assert page * limit < |items|;
    }
  }

  /** The first `k` pages, one after the other. */
  function FirstPages<T>(items: seq<T>, limit: int, k: nat): seq<T>
    requires limit > 0
  {
    if k == 0 then [] else FirstPages(items, limit, k - 1) + PageSlice(items, k, limit)
  }

  lemma {:induction false} FirstPagesArePrefix<T>(items: seq<T>, limit: int, k: nat)
    requires limit > 0
    ensures FirstPages(items, limit, k) == items[..Min(k * limit, |items|)]
  {
    if k > 0 {
      FirstPagesArePrefix(items, limit, k - 1);
      assert (k - 1) * limit + limit == k * limit;
      MulMonotone(0, k - 1, limit);
      if (k - 1) * limit < |items| {
        assert items[..Min(k * limit, |items|)]
          == items[..(k - 1) * limit] + items[(k - 1) * limit .. Min(k * limit, |items|)];
      } else {
        MulMonotone(k - 1, k, limit);
      }
    }
  }

  /** Walking the pages 1..totalPages returns every document exactly once, in order. */
  lemma PagesCoverAll<T>(items: seq<T>, limit: int)
    requires limit > 0
    ensures FirstPages(items, limit, CeilDiv(|items|, limit)) == items
  {
    FirstPagesArePrefix(items, limit, CeilDiv(|items|, limit));
    CeilDivBounds(|items|, limit);
  }

  /** 25 documents, 10 per page: three pages, the third holding 5; page 5 is empty. */
  lemma TwentyFiveDocuments(items: seq<Doc>)
    requires |items| == 25
    ensures CeilDiv(|items|, 10) == 3
    ensures |PageSlice(items, 3, 10)| == 5
    ensures 5 > CeilDiv(|items|, 10) && PageSlice(items, 5, 10) == []
    ensures NormalizePage(Some(0)) == 1 && NormalizePage(None) == 1 && EffectiveLimit(None) == 10
  {
  }
}
