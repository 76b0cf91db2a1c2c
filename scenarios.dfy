/** The fixtures of the repository's tests, replayed on the model: the
    two-team, four-member store of `QuerydslBasicTest.before()`, the
    save/find round trip of `MemberJpaRepositoryTest.basicTest()`, and the
    behaviour of `changeTeam` when a member is moved or re-added. */
module Scenarios {
  import opened Wrappers
  import StringUtils
  import opened Store
  import opened Querydsl
  import opened Paging
  import opened Conditions
  import opened RepositoryImpl
  import opened JpaRepository
  import opened Entity

  /** The store after `before()`: teamA {memberA 10, memberB 20} and
      teamB {memberC 30, memberD 40}, ids handed out in persist order. */
  function SeedDb(): Db
  {
    Db([MemberRecord(3, Some("memberA"), 10, Some(1)), MemberRecord(4, Some("memberB"), 20, Some(1)),
        MemberRecord(5, Some("memberC"), 30, Some(2)), MemberRecord(6, Some("memberD"), 40, Some(2))],
       [TeamRecord(1, Some("teamA")), TeamRecord(2, Some("teamB"))])
  }

  function NoCriteria(): MemberSearchCondition
  {
    MemberSearchCondition(None, None, None, None)
  }

  /** The first half of `before()`: two teams, persisted. */
  method SeedTeams() returns (repo: MemberJpaRepository, teamA: Team, teamB: Team)
    ensures fresh(repo) && fresh(teamA) && fresh(teamB)
    ensures repo.Valid() && repo.nextId == 3 && repo.db == Db([], SeedDb().teams)
    ensures teamA.id == Some(1) && teamB.id == Some(2) && teamA.members == [] && teamB.members == []
  {
    repo := new MemberJpaRepository();
    teamA := new Team(Some("teamA"));
    teamB := new Team(Some("teamB"));
    repo.PersistTeam(teamA);
    repo.PersistTeam(teamB);
  }

  /** The members of `before()`, built with the three-argument constructor,
      which lists each in its team. */
  method SeedMembers(teamA: Team, teamB: Team)
    returns (memberA: Member, memberB: Member, memberC: Member, memberD: Member)
    requires teamA != teamB && teamA.members == [] && teamB.members == []
    modifies teamA, teamB
    ensures fresh(memberA) && fresh(memberB) && fresh(memberC) && fresh(memberD)
    ensures memberA != memberB && memberC != memberD
    ensures teamA.members == [memberA, memberB] && teamB.members == [memberC, memberD]
    ensures teamA.id == old(teamA.id) && teamB.id == old(teamB.id)
    ensures memberA.id.None? && memberB.id.None? && memberC.id.None? && memberD.id.None?
    ensures memberA.team == teamA && memberB.team == teamA && memberC.team == teamB && memberD.team == teamB
    ensures memberA.username == Some("memberA") && memberA.age == 10
    ensures memberB.username == Some("memberB") && memberB.age == 20
    ensures memberC.username == Some("memberC") && memberC.age == 30
    ensures memberD.username == Some("memberD") && memberD.age == 40
  {
    memberA := new Member(Some("memberA"), 10, teamA);
    memberB := new Member(Some("memberB"), 20, teamA);
    memberC := new Member(Some("memberC"), 30, teamB);
    memberD := new Member(Some("memberD"), 40, teamB);
  }

  /** Two `em.persist` calls in a row. */
  method SavePair(repo: MemberJpaRepository, x: Member, y: Member)
    requires repo.Valid() && x != y && x.id.None? && y.id.None?
    requires x.team != null && x.team.id.Some? && y.team != null && y.team.id.Some?
    modifies repo, x`id, y`id
    ensures repo.Valid() && repo.nextId == old(repo.nextId) + 2 && repo.db.teams == old(repo.db.teams)
    ensures repo.db.members == old(repo.db.members) +
      [MemberRecord(old(repo.nextId), x.username, x.age, x.team.id),
       MemberRecord(old(repo.nextId) + 1, y.username, y.age, y.team.id)]
  {
    repo.Save(x);
    repo.Save(y);
  }

  /** `before()` run against the repository: teams first, then the four
      members built with the three-argument constructor, then persisted. */
  method QuerydslBasicFixture()
    returns (repo: MemberJpaRepository, teamA: Team, teamB: Team,
             memberA: Member, memberB: Member, memberC: Member, memberD: Member)
    ensures repo.db == SeedDb()
    ensures teamA.members == [memberA, memberB] && teamB.members == [memberC, memberD]
    ensures memberA.team == teamA && memberD.team == teamB
  {
    repo, teamA, teamB := SeedTeams();
    memberA, memberB, memberC, memberD := SeedMembers(teamA, teamB);
    var seed := SeedDb().members;
    SavePair(repo, memberA, memberB);
    assert repo.db.members == [seed[0], seed[1]];
    SavePair(repo, memberC, memberD);
    assert repo.db.members == seed;
  }

  /** The left join of the seeded store: every member with its team. */
  lemma SeedJoin()
    ensures LeftJoin(SeedDb()) ==
      [JoinedRow(SeedDb().members[0], Some(SeedDb().teams[0])),
       JoinedRow(SeedDb().members[1], Some(SeedDb().teams[0])),
       JoinedRow(SeedDb().members[2], Some(SeedDb().teams[1])),
       JoinedRow(SeedDb().members[3], Some(SeedDb().teams[1]))]
  {
    var db := SeedDb();
    assert RowById(db.teams, TeamId, 1) == Some(db.teams[0]);
    assert RowById(db.teams[1..], TeamId, 2) == Some(db.teams[1]);
    assert RowById(db.teams, TeamId, 2) == Some(db.teams[1]);
  }

  /** Filtering on team name "teamA" yields memberA then memberB. */
  lemma TeamAScenario()
    ensures Search(SeedDb(), NoCriteria().(teamName := Some("teamA"))) ==
      [MemberTeamDto(3, Some("memberA"), 10, Some(1), Some("teamA")),
       MemberTeamDto(4, Some("memberB"), 20, Some(1), Some("teamA"))]
  {
    var c := NoCriteria().(teamName := Some("teamA"));
    var all := LeftJoin(SeedDb());
    TeamARows();
    assert Search(SeedDb(), c) == Project([all[0], all[1]]);
    SeedJoin();
  }

  lemma TeamARows()
    ensures var all := LeftJoin(SeedDb());
      SearchRows(SeedDb(), NoCriteria().(teamName := Some("teamA"))) == [all[0], all[1]]
  {
    TeamAClause();
    TeamAFilter();
  }

  lemma TeamAClause()
    ensures AllOf(WhereClauses(NoCriteria().(teamName := Some("teamA")))) == Some(Eq(TeamName, "teamA"))
  {
    assert !StringUtils.IsWhitespace("teamA"[0]);
    WhereClausesFold(NoCriteria().(teamName := Some("teamA")));
  }

  lemma TeamAFilter()
    ensures var all := LeftJoin(SeedDb());
      Where(all, Some(Eq(TeamName, "teamA"))) == [all[0], all[1]]
  {
    var p := Some(Eq(TeamName, "teamA"));
    var rows := LeftJoin(SeedDb());
    SeedJoin();
    WhereCons(rows[3], [], p);
    WhereCons(rows[2], [rows[3]], p);
    WhereCons(rows[1], rows[2..], p);
    WhereCons(rows[0], rows[1..], p);
  }

  /** `Where` over four rows, one row at a time. */
  lemma WhereFour(rows: seq<JoinedRow>, p: Option<Predicate>)
    requires |rows| == 4
    ensures Where(rows, p) ==
      (if Satisfies(p, rows[0]) then [rows[0]] else []) + ((if Satisfies(p, rows[1]) then [rows[1]] else []) +
      ((if Satisfies(p, rows[2]) then [rows[2]] else []) + (if Satisfies(p, rows[3]) then [rows[3]] else [])))
  {
    var s1, s2, s3 := rows[1..], rows[2..], rows[3..];
    assert Where(s3, p) == (if Satisfies(p, rows[3]) then [rows[3]] else []) by {
      assert s3[0] == rows[3] && s3[1..] == [];
    }
    assert Where(s2, p) == (if Satisfies(p, rows[2]) then [rows[2]] else []) + Where(s3, p) by {
      assert s2[0] == rows[2] && s2[1..] == s3;
    }
    assert Where(s1, p) == (if Satisfies(p, rows[1]) then [rows[1]] else []) + Where(s2, p) by {
      assert s1[0] == rows[1] && s1[1..] == s2;
    }
  }

  /** The seeded rows selected by a clause on age alone. */
  lemma {:induction false} SeedAgeFilter(p: Option<Predicate>, lo: int, hi: int)
    requires forall row :: row in LeftJoin(SeedDb()) ==> (Satisfies(p, row) <==> lo <= row.member.age <= hi)
    ensures var all := LeftJoin(SeedDb());
      Where(all, p) == (if lo <= 10 <= hi then [all[0]] else []) + ((if lo <= 20 <= hi then [all[1]] else []) +
                       ((if lo <= 30 <= hi then [all[2]] else []) + (if lo <= 40 <= hi then [all[3]] else [])))
  {
    var all := LeftJoin(SeedDb());
    SeedJoin();
    assert all[0] in all && all[1] in all && all[2] in all && all[3] in all;
    WhereFour(all, p);
  }

  /** Ages 20 to 40 inclusive select memberB, memberC and memberD. */
  lemma AgeRangeScenario()
    ensures var r := Search(SeedDb(), NoCriteria().(ageGoe := Some(20), ageLoe := Some(40)));
      |r| == 3 && r[0].username == Some("memberB") && r[2].username == Some("memberD")
  {
    var c := NoCriteria().(ageGoe := Some(20), ageLoe := Some(40));
    var all := LeftJoin(SeedDb());
    AgeRangeRows();
    assert Search(SeedDb(), c) == Project([all[1], all[2], all[3]]);
    SeedJoin();
  }

  lemma AgeRangeRows()
    ensures var all := LeftJoin(SeedDb());
      SearchRows(SeedDb(), NoCriteria().(ageGoe := Some(20), ageLoe := Some(40))) == [all[1], all[2], all[3]]
  {
    SeedAgeRows(NoCriteria().(ageGoe := Some(20), ageLoe := Some(40)));
  }

  /** A search on age alone over the seeded store, row by row; an absent
      bound is replaced by the extreme seeded age, which it admits anyway. */
  lemma SeedAgeRows(c: MemberSearchCondition)
    requires c.username.None? && c.teamName.None?
    ensures var all := LeftJoin(SeedDb());
      var lo := if c.ageGoe.None? then 10 else c.ageGoe.value;
      var hi := if c.ageLoe.None? then 40 else c.ageLoe.value;
      SearchRows(SeedDb(), c) == (if lo <= 10 <= hi then [all[0]] else []) + ((if lo <= 20 <= hi then [all[1]] else []) +
                                 ((if lo <= 30 <= hi then [all[2]] else []) + (if lo <= 40 <= hi then [all[3]] else [])))
  {
    var all := LeftJoin(SeedDb());
    var lo := if c.ageGoe.None? then 10 else c.ageGoe.value;
    var hi := if c.ageLoe.None? then 40 else c.ageLoe.value;
    var p := AllOf(WhereClauses(c));
    SeedJoin();
    forall row | row in all
      ensures Satisfies(p, row) <==> lo <= row.member.age <= hi
    {
      WhereClausesMeaning(c, row);
    }
    SeedAgeFilter(p, lo, hi);
  }

  /** Offset 1 and page size 2 over the unfiltered four rows: two rows,
      memberB and memberC, and total 4. */
  lemma PagingScenario()
    ensures var pg := SearchPageSimple(SeedDb(), NoCriteria(), Pageable(1, 2));
      |pg.content| == 2 && pg.total == 4 && pg.content[0].username == Some("memberB")
  {
    AllAbsentSelectsEverything(SeedDb(), NoCriteria());
    SeedJoin();
  }

  /** `searchByBuilder` with ageGoe 10 and ageLoe 20 filters as ageGoe 20
      alone: three rows, where `search` with the same criteria gives the two
      members aged 10 and 20. */
  lemma BuilderIgnoresUpperBound()
    ensures |Search(SeedDb(), NoCriteria().(ageGoe := Some(20)))| == 3
    ensures |Search(SeedDb(), NoCriteria().(ageGoe := Some(10), ageLoe := Some(20)))| == 2
  {
    FromTwenty();
    TenToTwenty();
  }

  /** `searchByBuilder` itself on the seeded store with ageGoe 10 and ageLoe
      20: three rows, one more than `search` returns for the same criteria. */
  method BuilderOnSeed() returns (r: Result<seq<MemberTeamDto>, QueryError>)
    ensures r.Success? && |r.value| == 3
    ensures |Search(SeedDb(), NoCriteria().(ageGoe := Some(10), ageLoe := Some(20)))| == 2
  {
    r := SearchByBuilder(SeedDb(), NoCriteria().(ageGoe := Some(10), ageLoe := Some(20)));
    BuilderIgnoresUpperBound();
  }

  lemma FromTwenty()
    ensures |SearchRows(SeedDb(), NoCriteria().(ageGoe := Some(20)))| == 3
  {
    SeedAgeRows(NoCriteria().(ageGoe := Some(20)));
  }

  lemma TenToTwenty()
    ensures |SearchRows(SeedDb(), NoCriteria().(ageGoe := Some(10), ageLoe := Some(20)))| == 2
  {
    SeedAgeRows(NoCriteria().(ageGoe := Some(10), ageLoe := Some(20)));
  }

  /** `basicTest()`: save a member, then find it by id, in the full list and
      by username. */
  method JpaBasicTest() returns (repo: MemberJpaRepository, member: Member)
    ensures member.id == Some(1)
    ensures FindById(repo.db, member.id) == Success(Some(MemberRecord(1, Some("member1"), 10, None)))
    ensures FindAllQuerydsl(repo.db) == [MemberRecord(1, Some("member1"), 10, None)]
    ensures FindByUsernameQuerydsl(repo.db, Some("member1")) == Success([MemberRecord(1, Some("member1"), 10, None)])
  {
    repo := new MemberJpaRepository();
    member := new Member.WithoutTeam(Some("member1"), 10);
    repo.Save(member);
    SaveThenFind(Db([], []), MemberRecord(1, Some("member1"), 10, None));
  }

  /** Moving a member from x to y leaves a stale entry in x's list. */
  method ReassignKeepsOldEntry() returns (member: Member, x: Team, y: Team)
    ensures member.team == y
    ensures x.members == [member] && y.members == [member]
  {
    x := new Team(Some("x"));
    y := new Team(Some("y"));
    member := new Member(Some("member"), 1, x);
    member.ChangeTeam(y);
  }

  /** Assigning the same team twice lists the member twice. */
  method RepeatedAssignment() returns (member: Member, t: Team)
    ensures member.team == t && t.members == [member, member]
  {
    t := new Team(Some("t"));
    member := new Member.Named(Some("member"));
    member.ChangeTeam(t);
    member.ChangeTeam(t);
  }
}
