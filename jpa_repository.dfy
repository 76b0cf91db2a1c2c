/** `MemberJpaRepository`: persistence of members, lookups by id and by
    username, the projected and entity searches, and the `BooleanBuilder`
    search. */
module JpaRepository {
  import opened Wrappers
  import opened StringUtils
  import opened Store
  import opened Querydsl
  import opened Conditions
  import Entity

  /** The repository together with the persistence context it writes to:
      the two tables and the id generator. */
  class MemberJpaRepository {
    var db: Db
    var nextId: int

    /** Every id handed out so far is below `nextId`, and the ids of each
        table are unique (they are its primary key). */
    ghost predicate Valid()
      reads this
    {
      && (forall i :: 0 <= i < |db.members| ==> db.members[i].id < nextId)
      && (forall i :: 0 <= i < |db.teams| ==> db.teams[i].id < nextId)
      && UniqueKeys(db.members, MemberId)
      && UniqueKeys(db.teams, TeamId)
    }

    constructor ()
      ensures Valid() && db == Db([], []) && nextId == 1
    {
      db := Db([], []);
      nextId := 1;
    }

    /** `em.persist(team)`: assigns the team its id and writes its row. */
    method PersistTeam(t: Entity.Team)
      requires Valid() && t.id.None?
      modifies this, t`id
      ensures Valid()
      ensures t.id == Some(old(nextId)) && nextId == old(nextId) + 1
      ensures db.teams == old(db.teams) + [TeamRecord(old(nextId), t.name)]
      ensures db.members == old(db.members)
    {
      t.id := Some(nextId);
      db := db.(teams := db.teams + [TeamRecord(nextId, t.name)]);
      nextId := nextId + 1;
    }

    /** `save(member)`: `em.persist(member)` assigns the member a fresh id
        and writes its row; `findById` then finds exactly that row. The
        member's team, if any, must already be persisted. */
    method Save(m: Entity.Member)
      requires Valid() && m.id.None?
      requires m.team != null ==> m.team.id.Some?
      modifies this, m`id
      ensures Valid()
      ensures m.id == Some(old(nextId)) && nextId == old(nextId) + 1
      ensures db.members == old(db.members) +
        [MemberRecord(old(nextId), m.username, m.age, if m.team == null then None else m.team.id)]
      ensures db.teams == old(db.teams)
    {
      var rec := MemberRecord(nextId, m.username, m.age, if m.team == null then None else m.team.id);
      m.id := Some(nextId);
      db := db.(members := db.members + [rec]);
      nextId := nextId + 1;
    }
  }

  /** The round trip of `save`: once a row with a fresh id is appended,
      `findById` of that id returns exactly that row and `findAll_Querydsl`
      lists it last, after the earlier rows. */
  lemma SaveThenFind(db: Db, rec: MemberRecord)
    requires UniqueKeys(db.members, MemberId)
    requires forall i :: 0 <= i < |db.members| ==> db.members[i].id != rec.id
    ensures FindById(db.(members := db.members + [rec]), Some(rec.id)) == Success(Some(rec))
    ensures FindAllQuerydsl(db.(members := db.members + [rec])) == db.members + [rec]
  {
    RowByIdUnique(db.members + [rec], MemberId, |db.members|);
  }

  /** `findById(id)`: `Optional.ofNullable(em.find(Member.class, id))`. It
      never yields null: an empty Optional when no member has the id, the
      member otherwise. `em.find` refuses a null id. */
  function FindById(db: Db, id: Option<int>): (r: Result<Option<MemberRecord>, QueryError>)
    ensures id.None? <==> r == Failure(IllegalArgument)
    ensures r.Success? ==>
      (r.value.None? <==> forall i :: 0 <= i < |db.members| ==> db.members[i].id != id.value)
    ensures r.Success? && r.value.Some? ==> r.value.value in db.members && r.value.value.id == id.value
  {
    if id.None? then Failure(IllegalArgument) else Success(RowById(db.members, MemberId, id.value))
  }

  /** `findAll_Querydsl()` (`selectFrom(member).fetch()`), and likewise the
      JPQL `findAll()`: every member row, in table order. */
  function FindAllQuerydsl(db: Db): (r: seq<MemberRecord>)
    ensures r == db.members
  {
    WhereNone(LeftJoin(db));
    LeftJoinMembers(db);
    MembersOf(Where(LeftJoin(db), None))
  }

  /** The JPQL `where m.username = :username`: the rows whose username
      equals the argument; a null argument equals nothing. */
  function WithUsername(members: seq<MemberRecord>, username: Option<string>): (r: seq<MemberRecord>)
    ensures |r| <= |members|
    ensures forall m :: m in r <==> m in members && username.Some? && m.username == username
    ensures forall m :: multiset(r)[m] == if username.Some? && m.username == username then multiset(members)[m] else 0
    ensures username.None? ==> r == []
  {
    if members == [] then []
    else
      assert members == [members[0]] + members[1..];
      (if username.Some? && members[0].username == username then [members[0]] else [])
      + WithUsername(members[1..], username)
  }

  /** `findByUsername(username)` (JPQL). */
  function FindByUsername(db: Db, username: Option<string>): (r: seq<MemberRecord>)
    ensures forall m :: m in r <==> m in db.members && username.Some? && m.username == username
    ensures forall m :: multiset(r)[m] == if username.Some? && m.username == username then multiset(db.members)[m] else 0
    ensures username.None? ==> r == []
  {
    WithUsername(db.members, username)
  }

  /** The QueryDSL query `selectFrom(member).where(member.username.eq(u))`
      selects the same rows, in the same order, as the JPQL query. */
  lemma {:induction false} UsernameQueryAgrees(members: seq<MemberRecord>, teams: seq<TeamRecord>, u: string)
    ensures MembersOf(Where(Join(members, teams), Some(Eq(MemberUsername, u)))) == WithUsername(members, Some(u))
  {
    if members != [] {
      var p := Some(Eq(MemberUsername, u));
      var rows := Join(members, teams);
      var head := if Satisfies(p, rows[0]) then [rows[0]] else [];
      assert rows[1..] == Join(members[1..], teams);
      UsernameQueryAgrees(members[1..], teams, u);
      MembersOfConcat(head, Where(rows[1..], p));
    }
  }

  /** `findByUsername_Querydsl(username)`: the same members as
      `findByUsername`; `eq(null)` is refused with an exception. */
  function FindByUsernameQuerydsl(db: Db, username: Option<string>)
    : (r: Result<seq<MemberRecord>, QueryError>)
    ensures username.None? <==> r == Failure(IllegalArgument)
    ensures r.Success? ==> r.value == FindByUsername(db, username)
  {
    if username.None? then Failure(IllegalArgument)
    else
      UsernameQueryAgrees(db.members, db.teams, username.value);
      Success(MembersOf(Where(LeftJoin(db), Some(Eq(MemberUsername, username.value)))))
  }

  /** `searchMember(condition)`: the same join and conditions as `search`,
      selecting the member entity; its members are, in order, the members
      behind `search`'s rows. */
  function SearchMember(db: Db, c: MemberSearchCondition): (r: seq<MemberRecord>)
    ensures var s := Search(db, c);
      && |r| == |s|
      && forall i :: 0 <= i < |r| ==> r[i].id == s[i].memberId && r[i].username == s[i].username && r[i].age == s[i].age
    ensures forall m :: m in r ==> m in db.members
  {
    var rows := SearchRows(db, c);
    JoinedMembersStored(db, rows);
    MembersOf(rows)
  }

  /** `ageBetween(ageLoe, ageGoe)` as written: `ageGoe(ageLoe).and(ageGoe(ageGoe))`,
      two lower bounds, i.e. `age >= max(ageLoe, ageGoe)`. */
  function AgeBetween(ageLoe: int, ageGoe: int): (p: Predicate)
    ensures forall row :: Eval(p, row) <==> row.member.age >= Max(ageLoe, ageGoe)
  {
    And(AgeGoe(Some(ageLoe)).value, AgeGoe(Some(ageGoe)).value)
  }

  /** `ageBetween` as its parameter names intend: `ageLoe(ageLoe).and(ageGoe(ageGoe))`. */
  function AgeBetweenIntended(ageLoe: int, ageGoe: int): (p: Predicate)
    ensures forall row :: Eval(p, row) <==> ageGoe <= row.member.age <= ageLoe
  {
    And(AgeLoe(Some(ageLoe)).value, AgeGoe(Some(ageGoe)).value)
  }

  /** A member aged 20 lies between 10 and 30, yet `ageBetween(30, 10)`
      rejects it; the intended version accepts it. */
  lemma AgeBetweenRejectsInRange()
    ensures var row := JoinedRow(MemberRecord(1, Some("member"), 20, None), None);
      !Eval(AgeBetween(30, 10), row) && Eval(AgeBetweenIntended(30, 10), row)
  {
  }

  /** `searchByBuilder(condition)` as written. The username and team-name
      clauses are added when they have text and `age >= ageGoe` when ageGoe
      is non-null; the fourth clause is also guarded by `ageGoe != null` and
      adds `age >= ageLoe`. So ageLoe is ignored without ageGoe, never acts as
      an upper bound, and with ageGoe present but ageLoe null the null bound
      makes the call fail. */
  method SearchByBuilder(db: Db, condition: MemberSearchCondition)
    returns (r: Result<seq<MemberTeamDto>, QueryError>)
    ensures condition.ageGoe.Some? && condition.ageLoe.None? ==> r == Failure(NullPointer)
    ensures condition.ageGoe.None? ==> r == Success(Search(db, condition.(ageLoe := None)))
    ensures condition.ageGoe.Some? && condition.ageLoe.Some? ==>
      r == Success(Search(db, condition.(ageGoe := Some(Max(condition.ageGoe.value, condition.ageLoe.value)),
                                         ageLoe := None)))
  {
    var builder := new BooleanBuilder();
    if HasText(condition.username) {
      builder.And(Eq(MemberUsername, condition.username.value));
    }
    if HasText(condition.teamName) {
      builder.And(Eq(TeamName, condition.teamName.value));
    }
    if condition.ageGoe.Some? {
      builder.And(Goe(MemberAge, condition.ageGoe.value));
    }
    if condition.ageGoe.Some? {
      if condition.ageLoe.None? {
        return Failure(NullPointer);
      }
      builder.And(Goe(MemberAge, condition.ageLoe.value));
    }
    var effective := if condition.ageGoe.None? then condition.(ageLoe := None)
      else condition.(ageGoe := Some(Max(condition.ageGoe.value, condition.ageLoe.value)), ageLoe := None);
    forall row ensures Satisfies(builder.value, row) <==> Satisfies(AllOf(WhereClauses(effective)), row) {
      WhereClausesMeaning(effective, row);
    }
    WhereExt(LeftJoin(db), builder.value, AllOf(WhereClauses(effective)));
    r := Success(Project(Where(LeftJoin(db), builder.value)));
  }

  /** `searchByBuilder` with the fourth clause as intended: guarded by
      `ageLoe != null` and adding `age <= ageLoe`. It then agrees with
      `search` on every criteria. */
  method SearchByBuilderIntended(db: Db, condition: MemberSearchCondition)
    returns (r: seq<MemberTeamDto>)
    ensures r == Search(db, condition)
  {
    var builder := new BooleanBuilder();
    if HasText(condition.username) {
      builder.And(Eq(MemberUsername, condition.username.value));
    }
    if HasText(condition.teamName) {
      builder.And(Eq(TeamName, condition.teamName.value));
    }
    if condition.ageGoe.Some? {
      builder.And(Goe(MemberAge, condition.ageGoe.value));
    }
    if condition.ageLoe.Some? {
      builder.And(Loe(MemberAge, condition.ageLoe.value));
    }
    forall row ensures Satisfies(builder.value, row) <==> Satisfies(AllOf(WhereClauses(condition)), row) {
      WhereClausesMeaning(condition, row);
    }
    WhereExt(LeftJoin(db), builder.value, AllOf(WhereClauses(condition)));
    r := Project(Where(LeftJoin(db), builder.value));
  }
}
