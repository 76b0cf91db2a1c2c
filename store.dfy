/** The database as the repositories see it: the rows of the member and team
    tables, the member-left-join-team relation and the `MemberTeamDto`
    projection. Identities are the store-assigned ids. */
module Store {
  import opened Wrappers

  /** A row of the member table; `teamId` is the `team_id` foreign key. */
  datatype MemberRecord = MemberRecord(id: int, username: Option<string>, age: int, teamId: Option<int>)

  /** A row of the team table. */
  datatype TeamRecord = TeamRecord(id: int, name: Option<string>)

  /** Both tables, each in the order its rows were persisted. */
  datatype Db = Db(members: seq<MemberRecord>, teams: seq<TeamRecord>)

  /** One row of `from(member).leftJoin(member.team, team)`: the team side is
      absent when the member has no team. */
  datatype JoinedRow = JoinedRow(member: MemberRecord, team: Option<TeamRecord>)

  /** `MemberTeamDto(memberId, username, age, teamId, teamName)`. */
  datatype MemberTeamDto = MemberTeamDto(memberId: int, username: Option<string>, age: int,
                                         teamId: Option<int>, teamName: Option<string>)

  /** The primary keys of the two tables. */
  function MemberId(m: MemberRecord): int { m.id }
  function TeamId(t: TeamRecord): int { t.id }

  /** The row whose primary key is `id`, if there is one: `em.find` on the
      member table, and the join condition on the team table. */
  function RowById<T>(rows: seq<T>, key: T -> int, id: int): (r: Option<T>)
    ensures r.None? <==> forall i :: 0 <= i < |rows| ==> key(rows[i]) != id
    ensures r.Some? ==> r.value in rows && key(r.value) == id
  {
    if rows == [] then None
    else if key(rows[0]) == id then Some(rows[0])
    else RowById(rows[1..], key, id)
  }

  /** No two rows share a primary key. */
  ghost predicate UniqueKeys<T>(rows: seq<T>, key: T -> int)
  {
    forall i, j :: 0 <= i < j < |rows| ==> key(rows[i]) != key(rows[j])
  }

  /** With unique keys, looking up a row's key finds that very row. */
  lemma {:induction false} RowByIdUnique<T>(rows: seq<T>, key: T -> int, i: int)
    requires UniqueKeys(rows, key) && 0 <= i < |rows|
    ensures RowById(rows, key, key(rows[i])) == Some(rows[i])
  {
    if i > 0 {
      assert key(rows[0]) != key(rows[i]);
      RowByIdUnique(rows[1..], key, i - 1);
    }
  }

  /** The team a member row joins to: none for a null foreign key. */
  function TeamOf(m: MemberRecord, teams: seq<TeamRecord>): Option<TeamRecord>
  {
    if m.teamId.None? then None else RowById(teams, TeamId, m.teamId.value)
  }

  /** The left outer join, one row per member in member order. */
  function Join(members: seq<MemberRecord>, teams: seq<TeamRecord>): (rows: seq<JoinedRow>)
    ensures |rows| == |members|
    ensures forall i :: 0 <= i < |rows| ==>
      rows[i].member == members[i] && rows[i].team == TeamOf(members[i], teams)
  {
    if members == [] then []
    else [JoinedRow(members[0], TeamOf(members[0], teams))] + Join(members[1..], teams)
  }

  /** `from(member).leftJoin(member.team, team)` over the whole store. */
  function LeftJoin(db: Db): (rows: seq<JoinedRow>)
    ensures |rows| == |db.members|
  {
    Join(db.members, db.teams)
  }

  /** With unique team ids, a member whose foreign key is a team's id is
      joined to exactly that team. */
  lemma JoinedToItsTeam(db: Db, i: int, j: int)
    requires UniqueKeys(db.teams, TeamId)
    requires 0 <= i < |db.members| && 0 <= j < |db.teams| && db.members[i].teamId == Some(db.teams[j].id)
    ensures LeftJoin(db)[i] == JoinedRow(db.members[i], Some(db.teams[j]))
    ensures ToDto(LeftJoin(db)[i]).teamId == Some(db.teams[j].id)
    ensures ToDto(LeftJoin(db)[i]).teamName == db.teams[j].name
  {
    RowByIdUnique(db.teams, TeamId, j);
  }

  /** A member without a team, or whose foreign key matches no team row,
      still has its row in the left join, with the team side absent. */
  lemma TeamlessRowKept(db: Db, i: int)
    requires 0 <= i < |db.members|
    requires db.members[i].teamId.Some? ==>
      forall j :: 0 <= j < |db.teams| ==> db.teams[j].id != db.members[i].teamId.value
    ensures LeftJoin(db)[i] == JoinedRow(db.members[i], None)
    ensures ToDto(LeftJoin(db)[i]).teamId.None? && ToDto(LeftJoin(db)[i]).teamName.None?
  {
  }

  /** The projection of one joined row: team columns are null when the team
      side is absent. */
  function ToDto(row: JoinedRow): MemberTeamDto
  {
    MemberTeamDto(row.member.id, row.member.username, row.member.age,
                  if row.team.Some? then Some(row.team.value.id) else None,
                  if row.team.Some? then row.team.value.name else None)
  }

  /** `select(new QMemberTeamDto(...))` applied to every row, in order. */
  function Project(rows: seq<JoinedRow>): (r: seq<MemberTeamDto>)
    ensures |r| == |rows|
    ensures forall i :: 0 <= i < |r| ==> r[i] == ToDto(rows[i])
  {
    if rows == [] then [] else [ToDto(rows[0])] + Project(rows[1..])
  }

  /** The projection holds the DTO of every row and nothing else. */
  lemma ProjectMembers(rows: seq<JoinedRow>)
    ensures forall row :: row in rows ==> ToDto(row) in Project(rows)
    ensures forall d :: d in Project(rows) ==> exists row :: row in rows && d == ToDto(row)
  {
    forall row | row in rows ensures ToDto(row) in Project(rows) {
      var i :| 0 <= i < |rows| && rows[i] == row;
      assert Project(rows)[i] == ToDto(row);
    }
    forall d | d in Project(rows) ensures exists row :: row in rows && d == ToDto(row) {
      var i :| 0 <= i < |Project(rows)| && Project(rows)[i] == d;
      assert rows[i] in rows;
    }
  }

  /** `selectFrom(member)`: the member side of every row, in order. */
  function MembersOf(rows: seq<JoinedRow>): (r: seq<MemberRecord>)
    ensures |r| == |rows|
    ensures forall i :: 0 <= i < |r| ==> r[i] == rows[i].member
  {
    if rows == [] then [] else [rows[0].member] + MembersOf(rows[1..])
  }

  /** Every member selected from rows of the left join is a stored member. */
  lemma JoinedMembersStored(db: Db, rows: seq<JoinedRow>)
    requires forall row :: row in rows ==> row in LeftJoin(db)
    ensures forall m :: m in MembersOf(rows) ==> m in db.members
  {
    forall m | m in MembersOf(rows) ensures m in db.members {
      var i :| 0 <= i < |rows| && MembersOf(rows)[i] == m;
      assert rows[i] in rows;
      var j :| 0 <= j < |LeftJoin(db)| && LeftJoin(db)[j] == rows[i];
      assert db.members[j] == m;
    }
  }

  /** Selecting members distributes over concatenation. */
  lemma MembersOfConcat(a: seq<JoinedRow>, b: seq<JoinedRow>)
    ensures MembersOf(a + b) == MembersOf(a) + MembersOf(b)
  {
    assert forall i :: 0 <= i < |a + b| ==> MembersOf(a + b)[i] == (MembersOf(a) + MembersOf(b))[i];
  }

  /** The left join loses and duplicates no member: its member column is the
      member table itself. */
  lemma {:induction false} LeftJoinMembers(db: Db)
    ensures MembersOf(LeftJoin(db)) == db.members
  {
    var rows := LeftJoin(db);
    assert forall i :: 0 <= i < |db.members| ==> MembersOf(rows)[i] == db.members[i];
  }
}
