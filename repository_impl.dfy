/** `MemberRepositoryImpl`: the projected search and its two paging
    strategies over the member-left-join-team rows. */
module RepositoryImpl {
  import opened Store
  import opened Querydsl
  import opened Paging
  import opened Conditions

  /** `searchPageSimple`: one `fetchResults()` returns the bounded content
      and the unpaged total together; they become a `PageImpl`. The content
      is the search result after skipping `offset` rows and keeping at most
      `pageSize`, and the total is the size of the whole search result. */
  function SearchPageSimple(db: Db, c: MemberSearchCondition, pageable: Pageable)
    : (pg: Page<MemberTeamDto>)
    ensures pg.content == Slice(Search(db, c), pageable.offset, pageable.pageSize)
    ensures pg.total == |Search(db, c)|
  {
    var qr := FetchResults(LeftJoin(db), AllOf(WhereClauses(c)), pageable.offset, pageable.pageSize);
    PageOfKeepsTotal(Search(db, c), pageable);
    PageOf(qr.results, pageable, qr.total)
  }

  /** `getMemberTeamDtos`: the content query of `searchPageComplex`, the
      search result with offset and limit applied. */
  function GetMemberTeamDtos(db: Db, c: MemberSearchCondition, pageable: Pageable)
    : (r: seq<MemberTeamDto>)
    ensures var all := Search(db, c);
      |r| == if pageable.offset >= |all| then 0 else Min(pageable.pageSize, |all| - pageable.offset)
    ensures var all := Search(db, c);
      forall k :: 0 <= k < |r| ==> pageable.offset + k < |all| && r[k] == all[pageable.offset + k]
  {
    Slice(Search(db, c), pageable.offset, pageable.pageSize)
  }

  /** `searchPageComplex`: the content query and a separate count query
      (`select(member)...fetchCount()`) under the same join and the same four
      conditions. It returns the same page as `searchPageSimple`. */
  function SearchPageComplex(db: Db, c: MemberSearchCondition, pageable: Pageable)
    : (pg: Page<MemberTeamDto>)
    ensures pg == SearchPageSimple(db, c, pageable)
  {
    var results := GetMemberTeamDtos(db, c, pageable);
    var total := FetchCount(LeftJoin(db), AllOf(WhereClauses(c)));
    FetchCountIsWhereLength(LeftJoin(db), AllOf(WhereClauses(c)));
    PageOfKeepsTotal(Search(db, c), pageable);
    PageOf(results, pageable, total)
  }

  /** The page length is `max(0, min(pageSize, total - offset))`; an offset at
      or past the total gives empty content and still the full total. */
  lemma PageLength(db: Db, c: MemberSearchCondition, pageable: Pageable)
    ensures var pg := SearchPageSimple(db, c, pageable);
      |pg.content| == Max(0, Min(pageable.pageSize, pg.total - pageable.offset))
    ensures var pg := SearchPageSimple(db, c, pageable);
      pageable.offset >= pg.total ==> pg.content == [] && pg.total == |Search(db, c)|
  {
  }

}
