# Member search with QueryDSL, modelled in Dafny

This project models the data-access core of a Spring/JPA study application.
Members (`Member`) belong to teams (`Team`). Two repositories search them:

- `MemberJpaRepository` is a plain JPA repository with QueryDSL queries.
  It can save, find by id, list all, and find by username. It has three
  searches: the projected `search`, the entity `searchMember`, and the
  `BooleanBuilder`-based `searchByBuilder`.
- `MemberRepositoryImpl` is the custom Spring Data fragment. It has the same
  `search` and two paged versions: `searchPageSimple` uses one
  `fetchResults` call; `searchPageComplex` uses a content query plus a
  separate count query.

Every search is `from(member).leftJoin(member.team, team).where(...)`. The
`where` arguments come from four null-returning helpers: `usernameEq`,
`teamNameEq`, `ageGoe` and `ageLoe`.

## How the model is built

- **The database is a value.** `Store.Db` holds the member rows, each with a
  `teamId` foreign key, and the team rows.
- **Queries are functions on that value.** The left join keeps every
  member. Its team side is empty when the key is null or matches no team
  row.
- **Query semantics follow SQL and QueryDSL.**
  - `where(...)` folds its arguments left to right and skips null ones.
  - A comparison against a null column is not true.
  - `offset`/`limit` slice the result.
  - `fetchResults` runs the count first and returns an empty result when
    the count is zero.
  - `PageImpl` adjusts its total when the content is non-empty and
    `offset + pageSize` exceeds the total.
- **Stateful classes stay classes.**
  - The entities `Member` and `Team` are classes. `changeTeam` assigns the
    member's team field and appends to the team's `members` list.
  - The repository is a class holding the store and an id counter.
    `save` (`em.persist`) assigns the next id and appends the row.
  - QueryDSL's `BooleanBuilder` is a class with a mutable, initially null
    value.
- **Spring's `StringUtils.hasText`** is modelled exactly: a non-null string
  with at least one character that is not Java whitespace.

Modules, one per file:

- `Wrappers`: `Option` and `Result`.
- `StringUtils`: `hasText`.
- `Store`: the rows, the left join and the DTO projection.
- `Querydsl`: predicates, `where`, `fetchCount`, `offset`/`limit`,
  `fetchResults` and `BooleanBuilder`.
- `Paging`: `Pageable` and `PageImpl`.
- `Conditions`: the search criteria, the four helpers and the shared
  `search` query. The helpers and `search` are declared identically in both
  repository classes (`MemberJpaRepository.java:108-125` and `:144-157`
  repeat `MemberRepositoryImpl.java:29-47` and `:123-136`), so they are
  defined once.
- `RepositoryImpl`: the paged searches.
- `JpaRepository`: the JPA repository.
- `Entity`: `Member` and `Team`.
- `Scenarios`: the test fixtures replayed on the model.

## The team's member list is not kept in sync

Keeping the two-way association between a member and its team consistent
would need `changeTeam` to remove the member from its old team's list. The
code does not do this: it only assigns the field and appends to the new
list. The model follows the code.

- `Entity.Member.ChangeTeam` states that the old team's list is unchanged.
- `Scenarios.ReassignKeepsOldEntry` shows that, after a move, the member is
  listed in both teams.
- `Scenarios.RepeatedAssignment` shows that assigning the same team twice
  lists the member twice.

## Model

| member | source | states |
|---|---|---|
| StringUtils.ContainsText | src/main/java/study/querydsl/repository/MemberRepositoryImpl.java:123-129 | true exactly when some character of the string is not whitespace |
| StringUtils.HasText | src/main/java/study/querydsl/repository/MemberRepositoryImpl.java:123-129 | `hasText`: true exactly when the string is non-null and has a non-whitespace character; null and empty strings have no text |
| Store.RowById | src/main/java/study/querydsl/repository/MemberRepositoryImpl.java:40 | lookup by primary key, used for the join condition and for `em.find`: nothing exactly when no row has the key, otherwise a row with that key |
| Store.RowByIdUnique | src/main/java/study/querydsl/repository/MemberJpaRepository.java:48-51 | with unique keys, looking up a row's key returns that very row |
| Store.Join | src/main/java/study/querydsl/repository/MemberRepositoryImpl.java:39-40 | the left join keeps one row per member, in member order, each with the team its key points to |
| Store.LeftJoin | src/main/java/study/querydsl/repository/MemberRepositoryImpl.java:39-40 | the left join has exactly as many rows as there are members |
| Store.JoinedToItsTeam | src/main/java/study/querydsl/repository/MemberRepositoryImpl.java:32-40 | with unique team ids, a member whose key is a team's id is joined to exactly that team, and its DTO carries that team's id and name |
| Store.TeamlessRowKept | src/main/java/study/querydsl/repository/MemberRepositoryImpl.java:39-40 | a member whose key is null or matches no team row keeps its row, with the team side absent and null team columns in the DTO |
| Store.Project | src/main/java/study/querydsl/repository/MemberRepositoryImpl.java:32-38 | the `QMemberTeamDto` projection maps each row, in order, to its DTO |
| Store.ProjectMembers | src/main/java/study/querydsl/repository/MemberRepositoryImpl.java:32-38 | the projection contains the DTO of every row, and every DTO in it comes from a row |
| Store.MembersOf | src/main/java/study/querydsl/repository/MemberJpaRepository.java:127-137 | selecting the member entity from joined rows keeps each row's member, in order |
| Store.MembersOfConcat | src/main/java/study/querydsl/repository/MemberJpaRepository.java:67-72 | selecting members from two runs of rows gives the members of the first run, then those of the second |
| Store.JoinedMembersStored | src/main/java/study/querydsl/repository/MemberJpaRepository.java:127-137 | every member selected from left-join rows is a stored member |
| Store.LeftJoinMembers | src/main/java/study/querydsl/repository/MemberJpaRepository.java:56-60 | the members behind the left join are exactly the member table, in order |
| Querydsl.Conjoin | src/main/java/study/querydsl/repository/MemberRepositoryImpl.java:137 | `and` skipping nulls: null exactly when both sides are null; holds of a row exactly when both (possibly null) sides do |
| Querydsl.AllOfMeaning | src/main/java/study/querydsl/repository/MemberRepositoryImpl.java:41-45 | the left fold of the `where` arguments holds exactly when every non-null argument holds, and is null exactly when every argument is null |
| Querydsl.Where | src/main/java/study/querydsl/repository/MemberRepositoryImpl.java:39-46 | filtering never produces more rows than it is given |
| Querydsl.WhereMembers | src/main/java/study/querydsl/repository/MemberRepositoryImpl.java:39-46 | a row is in the filtered result exactly when it is an input row that satisfies the clause |
| Querydsl.WhereCounts | src/main/java/study/querydsl/repository/MemberRepositoryImpl.java:39-46 | filtering keeps each satisfying row as many times as it occurs in the input and drops every other row |
| Querydsl.WhereCons | src/main/java/study/querydsl/repository/MemberRepositoryImpl.java:39-46 | filtering goes row by row: the first row is kept exactly when it satisfies the clause, followed by the filtered rest |
| Querydsl.WhereNone | src/main/java/study/querydsl/repository/MemberJpaRepository.java:56-60 | a null where clause returns every row unchanged |
| Querydsl.WhereExt | src/main/java/study/querydsl/repository/MemberJpaRepository.java:98-100 | two clauses that agree on every row select the same rows in the same order |
| Querydsl.FetchCount | src/main/java/study/querydsl/repository/MemberRepositoryImpl.java:84-94 | the count never exceeds the number of rows |
| Querydsl.FetchCountIsWhereLength | src/main/java/study/querydsl/repository/MemberRepositoryImpl.java:84-94 | the count query counts exactly the rows the content query returns |
| Querydsl.Slice | src/main/java/study/querydsl/repository/MemberRepositoryImpl.java:67-68 | `offset`/`limit`: empty when the offset is at or past the end, otherwise `min(limit, size - offset)` rows, the k-th being input row `offset + k` |
| Querydsl.FetchResults | src/main/java/study/querydsl/repository/MemberRepositoryImpl.java:51-69 | `fetchResults`: the total is the unpaged row count, and the results are the sliced projection of the filtered rows, including when the count is zero |
| Querydsl.BooleanBuilder.constructor | src/main/java/study/querydsl/repository/MemberJpaRepository.java:76 | a new builder holds null |
| Querydsl.BooleanBuilder.And | src/main/java/study/querydsl/repository/MemberJpaRepository.java:77-88 | `and(right)`: the new value is the null-skipping conjunction of the old value and `right`, and holds exactly when both hold |
| Paging.PageOf | src/main/java/study/querydsl/repository/MemberRepositoryImpl.java:75 | `PageImpl` keeps content and pageable; it keeps the total when the content is empty or `offset + pageSize` does not exceed it, and otherwise reports the offset plus the content size |
| Paging.PageOfKeepsTotal | src/main/java/study/querydsl/repository/MemberRepositoryImpl.java:75 | for a page cut out of a result by offset and size, `PageImpl`'s total adjustment never changes the total |
| Conditions.UsernameEq | src/main/java/study/querydsl/repository/MemberRepositoryImpl.java:127-129 | null exactly when the username has no text; otherwise holds of a row exactly when its username equals the argument |
| Conditions.TeamNameEq | src/main/java/study/querydsl/repository/MemberRepositoryImpl.java:123-125 | null exactly when the team name has no text; otherwise holds exactly when the row has a team with that name, so teamless rows never match |
| Conditions.AgeGoe | src/main/java/study/querydsl/repository/MemberRepositoryImpl.java:134-136 | null exactly when the bound is null; otherwise holds exactly when `age >= bound` |
| Conditions.AgeLoe | src/main/java/study/querydsl/repository/MemberRepositoryImpl.java:130-132 | null exactly when the bound is null; otherwise holds exactly when `age <= bound` |
| Conditions.WhereClausesMeaning | src/main/java/study/querydsl/repository/MemberRepositoryImpl.java:41-45 | the four `where` arguments together hold of a row exactly when every present criterion matches it, and are null exactly when no criterion is present |
| Conditions.WhereClausesFold | src/main/java/study/querydsl/repository/MemberRepositoryImpl.java:41-45 | the combined clause is the left-nested conjunction of the four helpers, in source order |
| Conditions.SearchRows | src/main/java/study/querydsl/repository/MemberRepositoryImpl.java:39-45 | a row is selected exactly when it is a left-join row that matches every present criterion, and it appears as many times as in the left join (once per member), never more |
| Conditions.Search | src/main/java/study/querydsl/repository/MemberRepositoryImpl.java:29-47 | `search`: every matching row's DTO is returned and every DTO returned comes from a matching row; the result is the projection of the selected rows, so it has one DTO per selected row, in order |
| Conditions.AllAbsentSelectsEverything | src/main/java/study/querydsl/repository/MemberRepositoryImpl.java:29-47 | with no criterion present, every left-join row is returned, one per member, in member order |
| Conditions.TeamlessMember | src/main/java/study/querydsl/repository/MemberRepositoryImpl.java:39-45 | a member with no team row has null team columns, and is selected exactly when no team name is given and the other criteria match |
| Conditions.EmptyAgeRangeSelectsNothing | src/main/java/study/querydsl/repository/MemberRepositoryImpl.java:43-44 | when `ageGoe > ageLoe` the search is empty |
| RepositoryImpl.SearchPageSimple | src/main/java/study/querydsl/repository/MemberRepositoryImpl.java:49-76 | the content is the search result sliced by the pageable's offset and size, and the total is the full search size |
| RepositoryImpl.GetMemberTeamDtos | src/main/java/study/querydsl/repository/MemberRepositoryImpl.java:99-120 | exactly `min(pageSize, size - offset)` DTOs (none when the offset is at or past the end of the search result), the k-th being search result `offset + k` |
| RepositoryImpl.SearchPageComplex | src/main/java/study/querydsl/repository/MemberRepositoryImpl.java:78-97 | the content-plus-count-query page equals the single-query page of `searchPageSimple` |
| RepositoryImpl.PageLength | src/main/java/study/querydsl/repository/MemberRepositoryImpl.java:49-76 | the page holds `max(0, min(pageSize, total - offset))` rows; an offset at or past the total gives empty content with the full total |
| JpaRepository.MemberJpaRepository.constructor | src/main/java/study/querydsl/repository/MemberJpaRepository.java:27-30 | a new repository starts with empty tables and a valid id generator |
| JpaRepository.MemberJpaRepository.PersistTeam | src/test/java/study/querydsl/QuerydslBasicTest.java:52-53 | `em.persist(team)` gives the team the next id, appends its row, keeps the member rows, and keeps member and team ids unique |
| JpaRepository.MemberJpaRepository.Save | src/main/java/study/querydsl/repository/MemberJpaRepository.java:38-40 | `save`: gives the member the next id, appends its row (with its team's id as key), keeps the team rows, and keeps member and team ids unique |
| JpaRepository.SaveThenFind | src/test/java/study/querydsl/repository/MemberJpaRepositoryTest.java:26-36 | once a row with a fresh id is saved, `findById` returns exactly it, and `findAll_Querydsl` lists it after the earlier rows |
| JpaRepository.FindById | src/main/java/study/querydsl/repository/MemberJpaRepository.java:48-51 | fails exactly on a null id; otherwise empty exactly when no member has the id, and a member with that id when found |
| JpaRepository.FindAllQuerydsl | src/main/java/study/querydsl/repository/MemberJpaRepository.java:56-60 | every member row, in table order |
| JpaRepository.WithUsername | src/main/java/study/querydsl/repository/MemberJpaRepository.java:62-66 | exactly the members whose username equals the argument, each as many times as it is stored; none for a null argument |
| JpaRepository.FindByUsername | src/main/java/study/querydsl/repository/MemberJpaRepository.java:62-66 | JPQL `findByUsername`: exactly the members with that username, each as many times as it is stored; a null parameter matches nothing |
| JpaRepository.UsernameQueryAgrees | src/main/java/study/querydsl/repository/MemberJpaRepository.java:67-72 | the QueryDSL username query selects the same members, in the same order, as the JPQL query |
| JpaRepository.FindByUsernameQuerydsl | src/main/java/study/querydsl/repository/MemberJpaRepository.java:67-72 | fails exactly on a null username; otherwise returns the same list as `findByUsername` |
| JpaRepository.SearchMember | src/main/java/study/querydsl/repository/MemberJpaRepository.java:127-137 | `searchMember` returns one member per `search` row, with the same id, username and age, and every one is a stored member |
| JpaRepository.AgeBetween | src/main/java/study/querydsl/repository/MemberJpaRepository.java:139-141 | as written: holds exactly when `age >= max(ageLoe, ageGoe)` |
| JpaRepository.AgeBetweenIntended | src/main/java/study/querydsl/repository/MemberJpaRepository.java:139-141 | as intended: holds exactly when `ageGoe <= age <= ageLoe` |
| JpaRepository.AgeBetweenRejectsInRange | src/main/java/study/querydsl/repository/MemberJpaRepository.java:139-141 | age 20 lies between 10 and 30, but `ageBetween(30, 10)` rejects it while the intended version accepts it |
| JpaRepository.SearchByBuilder | src/main/java/study/querydsl/repository/MemberJpaRepository.java:74-102 | as written: ageLoe is ignored without ageGoe; with ageGoe it acts as a second lower bound; a null ageLoe beside a present ageGoe fails |
| JpaRepository.SearchByBuilderIntended | src/main/java/study/querydsl/repository/MemberJpaRepository.java:74-102 | with the fourth clause guarded by ageLoe and adding `age <= ageLoe`, the builder search equals `search` for all criteria |
| Entity.Team.constructor | src/main/java/study/querydsl/entity/Team.java:23-28 | a new team has the given name, no id and an empty member list |
| Entity.Member.constructor | src/main/java/study/querydsl/entity/Member.java:23-29 | the fields are set; with a team, the member joins it and is appended to its list, and the team's id and name are unchanged; without a team, no team |
| Entity.Member.WithoutTeam | src/main/java/study/querydsl/entity/Member.java:30-32 | a member with the given name and age and no team |
| Entity.Member.Named | src/main/java/study/querydsl/entity/Member.java:33-35 | a member with the given name, age 0 and no team |
| Entity.Member.ChangeTeam | src/main/java/study/querydsl/entity/Member.java:36-39 | the member's team becomes `team`, the member is appended to its list, and any previous team's list is left as it was |
| Scenarios.SeedTeams | src/test/java/study/querydsl/QuerydslBasicTest.java:50-53 | persisting teamA then teamB gives them ids 1 and 2 and writes their rows |
| Scenarios.SeedMembers | src/test/java/study/querydsl/QuerydslBasicTest.java:55-59 | the four members are built in their teams: teamA lists memberA and memberB, teamB lists memberC and memberD |
| Scenarios.SavePair | src/test/java/study/querydsl/QuerydslBasicTest.java:60-63 | two saves in a row append two rows with consecutive ids |
| Scenarios.QuerydslBasicFixture | src/test/java/study/querydsl/QuerydslBasicTest.java:47-64 | `before()` yields the seeded store: teams 1 and 2, then members 3 to 6 with their teams' keys |
| Scenarios.SeedJoin | src/test/java/study/querydsl/QuerydslBasicTest.java:47-64 | the seeded left join pairs memberA and memberB with teamA and memberC and memberD with teamB |
| Scenarios.TeamAScenario | src/main/java/study/querydsl/repository/MemberRepositoryImpl.java:29-47 | the repository's left-join `search` with team name "teamA" (the filter of the inner-join test at QuerydslBasicTest.java:229-240) returns memberA and memberB, in order, with their team columns |
| Scenarios.TeamARows | src/main/java/study/querydsl/repository/MemberRepositoryImpl.java:39-45 | the "teamA" search selects the first two seeded rows |
| Scenarios.TeamAClause | src/main/java/study/querydsl/repository/MemberRepositoryImpl.java:41-45 | a team-name-only criterion becomes the single clause `team.name.eq("teamA")` |
| Scenarios.TeamAFilter | src/main/java/study/querydsl/repository/MemberRepositoryImpl.java:39-46 | that clause keeps exactly the first two seeded rows |
| Scenarios.WhereFour | src/main/java/study/querydsl/repository/MemberRepositoryImpl.java:39-46 | filtering four rows keeps each one exactly when it satisfies the clause, in order |
| Scenarios.SeedAgeFilter | src/main/java/study/querydsl/repository/MemberRepositoryImpl.java:43-44 | a clause that tests only the age keeps the seeded members whose age lies in its range |
| Scenarios.SeedAgeRows | src/main/java/study/querydsl/repository/MemberRepositoryImpl.java:43-44 | an age-only search over the seeded store keeps the members aged within the bounds |
| Scenarios.AgeRangeRows | src/main/java/study/querydsl/repository/MemberRepositoryImpl.java:43-44 | ages 20 to 40 select the last three seeded rows |
| Scenarios.AgeRangeScenario | src/main/java/study/querydsl/repository/MemberRepositoryImpl.java:29-47 | ages 20 to 40 return three DTOs, memberB first and memberD last |
| Scenarios.PagingScenario | src/main/java/study/querydsl/repository/MemberRepositoryImpl.java:49-76 | offset 1, size 2 over the unfiltered store: two rows starting with memberB, total 4 |
| Scenarios.FromTwenty | src/main/java/study/querydsl/repository/MemberRepositoryImpl.java:43 | `ageGoe` 20 alone selects three seeded rows |
| Scenarios.TenToTwenty | src/main/java/study/querydsl/repository/MemberRepositoryImpl.java:43-44 | ages 10 to 20 select two seeded rows |
| Scenarios.BuilderIgnoresUpperBound | src/main/java/study/querydsl/repository/MemberRepositoryImpl.java:43-44 | `search` with ageGoe 20 alone returns three seeded rows, and with ages 10 to 20 returns two; `Scenarios.BuilderOnSeed` uses this |
| Scenarios.BuilderOnSeed | src/main/java/study/querydsl/repository/MemberJpaRepository.java:74-102 | `searchByBuilder` itself on the seeded store with ageGoe 10 and ageLoe 20 succeeds with three rows, where `search` returns two |
| Scenarios.JpaBasicTest | src/test/java/study/querydsl/repository/MemberJpaRepositoryTest.java:26-36 | after saving "member1", `findById`, `findAll_Querydsl` and `findByUsername_Querydsl("member1")` each return exactly its row |
| Scenarios.ReassignKeepsOldEntry | src/main/java/study/querydsl/entity/Member.java:36-39 | moving a member from team x to team y leaves it listed in both |
| Scenarios.RepeatedAssignment | src/main/java/study/querydsl/entity/Member.java:36-39 | assigning the same team twice lists the member twice |

## Left out

- The JPA persistence context, SQL generation and database I/O are not modelled. The store is a value; a query reads it directly.
- Flushing, dirty checking and lazy loading are not modelled. Team rows are written when a team is persisted. Later changes to the team entity do not reach its row.
- Generated ids are modelled as one counter shared by teams and members, starting at 1. The real values depend on how the id generator is configured; the model relies only on ids being distinct. The ids are unbounded integers, not Java `long`.
- Without `orderBy`, the model returns rows in member-table order. SQL leaves that order unspecified.
- `JpaRepository.MemberJpaRepository.Save`: requires a transient member (no id yet) whose team, if any, is already persisted. `persist` on a detached entity and cascading are not modelled.
- `findAll()` (JPQL, MemberJpaRepository.java:52-54) returns the same list as `findAll_Querydsl` and is modelled by `JpaRepository.FindAllQuerydsl`.
- `Paging.PageOf`: `Pageable.unpaged()` is not modelled; every pageable has an offset and a page size. The `long` arithmetic of `offset + pageSize` is taken to be exact.
- Member ages are Java `int`. The model uses unbounded integers because no operation does arithmetic on them, only comparisons.
- The join assumes that team ids are unique, as a primary key makes them. `Store.RowById` takes the first team row with the key; a SQL join would return one row per matching team row. `JpaRepository.MemberJpaRepository.Valid` keeps team ids unique, and `Store.JoinedToItsTeam` relies on it.
- `Entity.Member.ChangeTeam`: requires a non-null team. `changeTeam(null)` throws a NullPointerException at Member.java:38, and that failure is not modelled. The constructor calls it only with a non-null team.
- `Entity.Member.constructor`: the Lombok setters, the protected no-argument constructors, `toString` and the JPA annotations are left out. `Team.members` is modelled as a sequence field, with no mapping back to the foreign key.
- The remaining tests of QuerydslBasicTest.java (sorting, aggregation, subqueries, projections, bulk updates, SQL functions) exercise QueryDSL itself, not the repositories, and are left out. The `paging1` test sorts by username, which the repositories do not, so it is not replayed.
- InitMember.java, QuerydslApplication.java, MemberDto.java and Hello.java are not part of this model. MemberSearchCondition.java and MemberTeamDto.java are not part of this model either; their datatypes follow their use in the repositories.

## Findings

| source | as written | input that shows it | evidently intended | confidence | as-written member | corrected member |
|---|---|---|---|---|---|---|
| src/main/java/study/querydsl/repository/MemberJpaRepository.java:86-88 | the fourth builder clause is guarded by `getAgeGoe() != null` and adds `member.age.goe(getAgeLoe())` | seeded store, ageGoe 10 and ageLoe 20: three members (aged 20, 30, 40) instead of two (10, 20); ageGoe 10 with ageLoe null throws | guard on `getAgeLoe() != null` and add `member.age.loe(getAgeLoe())`, as `search` does | high, not executed | JpaRepository.SearchByBuilder, Scenarios.BuilderOnSeed | JpaRepository.SearchByBuilderIntended |
| src/main/java/study/querydsl/repository/MemberJpaRepository.java:139-141 | `ageGoe(ageLoe).and(ageGoe(ageGoe))`: two lower bounds | `ageBetween(30, 10)` on a member aged 20 is false | `ageLoe(ageLoe).and(ageGoe(ageGoe))`: `ageGoe <= age <= ageLoe` | high, not executed | JpaRepository.AgeBetween, JpaRepository.AgeBetweenRejectsInRange | JpaRepository.AgeBetweenIntended |
