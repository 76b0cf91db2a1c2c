/** The two entities and their association: a member refers to at most one
    team, and a team keeps the ordered `members` back-collection that
    `changeTeam` appends to. */
module Entity {
  import opened Wrappers

  class Team {
    /** Store-assigned on persist; absent while the team is transient. */
    var id: Option<int>
    var name: Option<string>
    /** The `members` list, in the order of the `changeTeam` calls that
        targeted this team. */
    var members: seq<Member>

    /** `new Team(name)`: stores the name; the member list starts empty. */
    constructor (name: Option<string>)
      ensures this.name == name && members == [] && id.None?
    {
      this.name := name;
      members := [];
      id := None;
    }
  }

  class Member {
    /** Store-assigned on persist; absent while the member is transient. */
    var id: Option<int>
    var username: Option<string>
    var age: int
    var team: Team?

    /** `new Member(username, age, team)`: stores username and age, and calls
        `changeTeam(team)` only for a non-null team; a null team leaves the
        member without a team and touches no list. */
    constructor (username: Option<string>, age: int, team: Team?)
      modifies team
      ensures this.username == username && this.age == age && id.None?
      ensures this.team == team
      ensures team != null ==> team.members == old(team.members) + [this]
      ensures team != null ==> team.id == old(team.id) && team.name == old(team.name)
    {
      this.username := username;
      this.age := age;
      this.id := None;
      this.team := null;
      new;
      if team != null {
        ChangeTeam(team);
      }
    }

    /** `new Member(username, age)`: the three-argument constructor with a
        null team. */
    constructor WithoutTeam(username: Option<string>, age: int)
      ensures this.username == username && this.age == age && id.None?
      ensures team == null
    {
      this.username := username;
      this.age := age;
      this.id := None;
      this.team := null;
    }

    /** `new Member(username)`: age 0 and no team. */
    constructor Named(username: Option<string>)
      ensures this.username == username && age == 0 && id.None?
      ensures team == null
    {
      this.username := username;
      this.age := 0;
      this.id := None;
      this.team := null;
    }

    /** `changeTeam(team)`: points this member at `team` and appends this
        member at the end of `team.members`. The previous team's list is not
        touched, so the member stays listed there; calling it twice with the
        same team lists the member twice. */
    method ChangeTeam(team: Team)
      modifies this`team, team`members
      ensures this.team == team
      ensures team.members == old(team.members) + [this]
      ensures old(this.team) != null && old(this.team) != team ==>
        old(this.team).members == old(this.team.members)
    {
      this.team := team;
      team.members := team.members + [this];
    }
  }
}
