/** Spring Data's `Pageable` and `PageImpl`, as far as the repositories use
    them: the offset and page size of a request, and the page that bundles
    content with a total. */
module Paging {
  import opened Querydsl

  /** A page request: `getOffset()` and `getPageSize()`. */
  datatype Pageable = Pageable(offset: nat, pageSize: nat)

  /** `PageImpl`: the content, the request and `getTotalElements()`. */
  datatype Page<T> = Page(content: seq<T>, pageable: Pageable, total: nat)

  /** `new PageImpl<>(content, pageable, total)`. The constructor trusts the
      given total except on a last page it can see: non-empty content whose
      request reaches past the total; there the total becomes the offset
      plus the content size. */
  function PageOf<T>(content: seq<T>, pageable: Pageable, total: nat): (pg: Page<T>)
    ensures pg.content == content && pg.pageable == pageable
    ensures |content| == 0 || pageable.offset + pageable.pageSize <= total ==> pg.total == total
    ensures |content| != 0 && pageable.offset + pageable.pageSize > total ==>
      pg.total == pageable.offset + |content|
  {
    if |content| != 0 && pageable.offset + pageable.pageSize > total
    then Page(content, pageable, pageable.offset + |content|)
    else Page(content, pageable, total)
  }

  /** When the content is the requested slice of a result whose size is the
      given total, the page reports that total unchanged. */
  lemma {:induction false} PageOfKeepsTotal<T>(s: seq<T>, pageable: Pageable)
    ensures PageOf(Slice(s, pageable.offset, pageable.pageSize), pageable, |s|).total == |s|
  {
    var content := Slice(s, pageable.offset, pageable.pageSize);
    if |content| != 0 && pageable.offset + pageable.pageSize > |s| {
      assert |content| == |s| - pageable.offset;
    }
  }
}
