/** The search criteria and the null-safe condition helpers that both
    repository classes declare (`usernameEq`, `teamNameEq`, `ageGoe`,
    `ageLoe`), and the filtered member-left-join-team query they share. */
module Conditions {
  import opened Wrappers
  import opened StringUtils
  import opened Store
  import opened Querydsl

  /** `MemberSearchCondition`: four optional criteria. */
  datatype MemberSearchCondition = MemberSearchCondition(
    username: Option<string>, teamName: Option<string>, ageGoe: Option<int>, ageLoe: Option<int>)

  /** `usernameEq(username)`: `member.username.eq(username)` when the
      argument has text, otherwise null. */
  function UsernameEq(username: Option<string>): (r: Option<Predicate>)
    ensures r.None? <==> !HasText(username)
    ensures r.Some? ==> forall row :: Eval(r.value, row) <==> row.member.username == username
  {
    if HasText(username) then Some(Eq(MemberUsername, username.value)) else None
  }

  /** `teamNameEq(teamName)`: `team.name.eq(teamName)` when the argument has
      text, otherwise null. A row without a team never satisfies it. */
  function TeamNameEq(teamName: Option<string>): (r: Option<Predicate>)
    ensures r.None? <==> !HasText(teamName)
    ensures r.Some? ==> forall row :: Eval(r.value, row) <==>
      row.team.Some? && row.team.value.name == teamName
  {
    if HasText(teamName) then Some(Eq(TeamName, teamName.value)) else None
  }

  /** `ageGoe(ageGoe)`: inclusive lower bound, or null. */
  function AgeGoe(ageGoe: Option<int>): (r: Option<Predicate>)
    ensures r.None? <==> ageGoe.None?
    ensures r.Some? ==> forall row :: Eval(r.value, row) <==> row.member.age >= ageGoe.value
  {
    if ageGoe.Some? then Some(Goe(MemberAge, ageGoe.value)) else None
  }

  /** `ageLoe(ageLoe)`: inclusive upper bound, or null. */
  function AgeLoe(ageLoe: Option<int>): (r: Option<Predicate>)
    ensures r.None? <==> ageLoe.None?
    ensures r.Some? ==> forall row :: Eval(r.value, row) <==> row.member.age <= ageLoe.value
  {
    if ageLoe.Some? then Some(Loe(MemberAge, ageLoe.value)) else None
  }

  /** The four arguments passed to `where(...)`, in source order. */
  function WhereClauses(c: MemberSearchCondition): seq<Option<Predicate>>
  {
    [UsernameEq(c.username), TeamNameEq(c.teamName), AgeGoe(c.ageGoe), AgeLoe(c.ageLoe)]
  }

  /** Reference meaning of the criteria on one joined row: every criterion
      that is present holds, and absent ones impose nothing. */
  predicate Matches(c: MemberSearchCondition, row: JoinedRow)
  {
    && (HasText(c.username) ==> row.member.username == c.username)
    && (HasText(c.teamName) ==> row.team.Some? && row.team.value.name == c.teamName)
    && (c.ageGoe.Some? ==> row.member.age >= c.ageGoe.value)
    && (c.ageLoe.Some? ==> row.member.age <= c.ageLoe.value)
  }

  /** The combined where clause holds of a row exactly when the criteria
      match it, and it is null exactly when no criterion is present. */
  lemma WhereClausesMeaning(c: MemberSearchCondition, row: JoinedRow)
    ensures Satisfies(AllOf(WhereClauses(c)), row) <==> Matches(c, row)
    ensures AllOf(WhereClauses(c)).None? <==>
      !HasText(c.username) && !HasText(c.teamName) && c.ageGoe.None? && c.ageLoe.None?
  {
    var ps := WhereClauses(c);
    AllOfMeaning(ps, row);
    assert ps[0] == UsernameEq(c.username) && ps[1] == TeamNameEq(c.teamName);
    assert ps[2] == AgeGoe(c.ageGoe) && ps[3] == AgeLoe(c.ageLoe);
    if Matches(c, row) {
      assert forall i :: 0 <= i < |ps| && ps[i].Some? ==> Eval(ps[i].value, row) by {
        forall i | 0 <= i < |ps| && ps[i].Some? ensures Eval(ps[i].value, row) {
          assert i == 0 || i == 1 || i == 2 || i == 3;
        }
      }
    }
  }

  /** The fold of the four `where` arguments, written out. */
  lemma WhereClausesFold(c: MemberSearchCondition)
    ensures AllOf(WhereClauses(c)) ==
      Conjoin(Conjoin(Conjoin(UsernameEq(c.username), TeamNameEq(c.teamName)), AgeGoe(c.ageGoe)), AgeLoe(c.ageLoe))
  {
    var ps := WhereClauses(c);
    var u, t, g, l := UsernameEq(c.username), TeamNameEq(c.teamName), AgeGoe(c.ageGoe), AgeLoe(c.ageLoe);
    assert ps[..1] == [u] && [u][..0] == [];
    assert AllOf(ps[..1]) == u;
    assert ps[..2] == [u, t] && [u, t][..1] == [u];
    assert AllOf(ps[..2]) == Conjoin(u, t);
    assert ps[..3] == [u, t, g] && [u, t, g][..2] == [u, t];
    assert AllOf(ps[..3]) == Conjoin(Conjoin(u, t), g);
    assert ps[..|ps| - 1] == ps[..3];
  }

  /** `from(member).leftJoin(member.team, team).where(...)`: the joined rows
      the criteria select, in member order. */
  function SearchRows(db: Db, c: MemberSearchCondition): (rows: seq<JoinedRow>)
    ensures |rows| <= |db.members|
    ensures forall row :: row in rows <==> row in LeftJoin(db) && Matches(c, row)
    ensures forall row :: multiset(rows)[row] == if Matches(c, row) then multiset(LeftJoin(db))[row] else 0
  {
    var p := AllOf(WhereClauses(c));
    forall row ensures Satisfies(p, row) <==> Matches(c, row) {
      WhereClausesMeaning(c, row);
    }
    WhereMembers(LeftJoin(db), p);
    WhereCounts(LeftJoin(db), p);
    Where(LeftJoin(db), p)
  }

  /** `search(condition)`: the selected rows projected to `MemberTeamDto`.
      Both repository classes declare this same query. */
  function Search(db: Db, c: MemberSearchCondition): (r: seq<MemberTeamDto>)
    ensures r == Project(SearchRows(db, c))
    ensures |r| <= |db.members|
    ensures forall row :: row in LeftJoin(db) && Matches(c, row) ==> ToDto(row) in r
    ensures forall d :: d in r ==> exists row :: row in LeftJoin(db) && Matches(c, row) && d == ToDto(row)
  {
    var rows := SearchRows(db, c);
    ProjectMembers(rows);
    Project(rows)
  }

  /** With every criterion absent, nothing is filtered: one row per member,
      in member order. */
  lemma AllAbsentSelectsEverything(db: Db, c: MemberSearchCondition)
    requires !HasText(c.username) && !HasText(c.teamName) && c.ageGoe.None? && c.ageLoe.None?
    ensures SearchRows(db, c) == LeftJoin(db)
    ensures Search(db, c) == Project(LeftJoin(db))
    ensures |Search(db, c)| == |db.members|
  {
    WhereClausesMeaning(c, JoinedRow(MemberRecord(0, None, 0, None), None));
    WhereNone(LeftJoin(db));
  }

  /** A member with no team row (null or dangling foreign key) appears, with
      null team columns, exactly when no team-name criterion is present and
      the rest of the criteria match. */
  lemma TeamlessMember(db: Db, c: MemberSearchCondition, i: int)
    requires 0 <= i < |db.members|
    requires db.members[i].teamId.Some? ==>
      forall j :: 0 <= j < |db.teams| ==> db.teams[j].id != db.members[i].teamId.value
    ensures ToDto(LeftJoin(db)[i]).teamId.None? && ToDto(LeftJoin(db)[i]).teamName.None?
    ensures LeftJoin(db)[i] in SearchRows(db, c) <==>
      !HasText(c.teamName) && Matches(c.(teamName := None), LeftJoin(db)[i])
  {
  }

  /** Criteria whose age bounds cannot both hold select nothing. */
  lemma EmptyAgeRangeSelectsNothing(db: Db, c: MemberSearchCondition)
    requires c.ageGoe.Some? && c.ageLoe.Some? && c.ageGoe.value > c.ageLoe.value
    ensures Search(db, c) == []
  {
  }
}
