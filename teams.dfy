/**
 * Team membership of `src/teams/teams.service.ts`: the `Team` table, the
 * `TeamMember` table keyed by (team, user), the guarded operations that
 * create a team with its OWNER row, invite, change a role and remove a
 * member, and the read-only queries. Each service call is one atomic step.
 */
module Teams {
  import opened Wrappers
  import Roles

  type TeamId = nat
  type UserId = nat
  /** The instant `new Date()` / the column default `now()` gives. */
  type Time = int

  /** The team-scoped role, the Prisma enum `TeamRole`. */
  datatype TeamRole = Owner | Admin | TeamLead | Developer | Tester | Member

  /** Position of a role in the enum's declaration, which `orderBy: roleInTeam asc` follows.
      The schema is not part of this model; the order is the one the service's comment states. */
  function Rank(r: TeamRole): nat {
    match r
    case Owner => 0
    case Admin => 1
    case TeamLead => 2
    case Developer => 3
    case Tester => 4
    case Member => 5
  }

  /** A row of the `Team` table. */
  datatype Team = Team(id: TeamId, name: string, ownerId: UserId)

  /** A row of the `TeamMember` table. */
  datatype MemberRow = MemberRow(teamId: TeamId, userId: UserId, roleInTeam: TeamRole,
                                 assignedBy: UserId, joinedAt: Time, updatedAt: Time)

  type TeamTable = map<TeamId, Team>
  /** The `TeamMember` table under its unique key `teamId_userId`. */
  type MemberTable = map<(TeamId, UserId), MemberRow>

  /** A team as `getUserTeams` returns it: with all of its member rows. */
  datatype TeamWithMembers = TeamWithMembers(team: Team, members: set<MemberRow>)

  /** The `BadRequestException`s the service throws. */
  datatype TeamError =
    | NotLeaderOrAdmin        // 'Only team leaders and admins can invite members'
    | UserNotFound            // 'User not found'
    | AlreadyMember           // 'User is already a team member'
    | NotTeamMember           // 'You are not a member of this team'
    | NotTeamOwner            // 'Only team owners can change member roles'
    | MemberNotFound          // 'Member not found in this team'
    | CannotChangeOwnerRole   // 'Cannot change owner role'
    | CannotAssignOwner       // 'Cannot assign OWNER role. Each team can only have one owner.'
    | CannotRemoveOwner       // 'Cannot remove team owner'
    | OnlyOwnerRemovesOthers  // 'Only team owners can remove other members'

  /** The tables agree with their keys, every row belongs to a team, and every
      team has a row for its `ownerId` whose role is OWNER. */
  ghost predicate Consistent(teams: TeamTable, members: MemberTable) {
    && (forall t :: t in teams ==> teams[t].id == t)
    && (forall k :: k in members ==> members[k].teamId == k.0 && members[k].userId == k.1 && k.0 in teams)
    && (forall t :: t in teams ==> (t, teams[t].ownerId) in members && members[(t, teams[t].ownerId)].roleInTeam == Owner)
  }

  /** No row but the owner's holds the OWNER role. */
  ghost predicate SingleOwner(teams: TeamTable, members: MemberTable) {
    forall k :: k in members && members[k].roleInTeam == Owner ==> k.0 in teams && k.1 == teams[k.0].ownerId
  }

  /** The keys of the OWNER rows of team `t`. */
  function OwnerRows(members: MemberTable, t: TeamId): set<(TeamId, UserId)> {
    set k | k in members && k.0 == t && members[k].roleInTeam == Owner
  }

  /** All member rows of team `t` (`where: { teamId }`). */
  function TeamRows(members: MemberTable, t: TeamId): (rows: set<MemberRow>)
    ensures forall row :: row in rows <==> exists u :: (t, u) in members && members[(t, u)] == row
  {
    var rows := set k | k in members && k.0 == t :: members[k];
    assert forall row :: row in rows ==> exists u :: (t, u) in members && members[(t, u)] == row by {
      forall row | row in rows ensures exists u :: (t, u) in members && members[(t, u)] == row {
        var k :| k in members && k.0 == t && members[k] == row;
        assert (t, k.1) == k;
      }
    }
    rows
  }

  /** In a consistent table with a single owner per team, each team has exactly
      one OWNER row: its owner's. */
  lemma OneOwnerPerTeam(teams: TeamTable, members: MemberTable, t: TeamId)
    requires Consistent(teams, members) && SingleOwner(teams, members)
    requires t in teams
    ensures OwnerRows(members, t) == {(t, teams[t].ownerId)}
    ensures |OwnerRows(members, t)| == 1
  {
    var owners := OwnerRows(members, t);
    forall k | k in owners ensures k == (t, teams[t].ownerId) {
      assert k.0 == t && k.1 == teams[t].ownerId;
    }
    assert (t, teams[t].ownerId) in owners;
  }

  /** `isTeamCreator`: the team exists and its `ownerId` is the user. */
  function IsTeamCreator(teams: TeamTable, teamId: TeamId, userId: UserId): (b: bool)
    ensures b ==> teamId in teams
    ensures b <==> teamId in teams && teams[teamId].ownerId == userId
  {
    teamId in teams && teams[teamId].ownerId == userId
  }

  /** The creator of a team is exactly the user whose row in it holds OWNER. */
  lemma CreatorIffOwnerRole(teams: TeamTable, members: MemberTable, teamId: TeamId, userId: UserId)
    requires Consistent(teams, members) && SingleOwner(teams, members)
    ensures IsTeamCreator(teams, teamId, userId) <==>
      (teamId, userId) in members && members[(teamId, userId)].roleInTeam == Owner
  {
  }

  /** The gate of `inviteToTeam`: the inviter holds OWNER, ADMIN or TEAM_LEAD in the team. */
  predicate InviteGate(members: MemberTable, teamId: TeamId, inviterId: UserId) {
    (teamId, inviterId) in members && members[(teamId, inviterId)].roleInTeam in {Owner, Admin, TeamLead}
  }

  /** `canUserInviteMembers`: the system role is OWNER, ADMIN or TEAM_LEAD, and
      the user's row in the team holds OWNER or ADMIN. */
  function CanUserInviteMembers(members: MemberTable, teamId: TeamId, userId: UserId, userRole: Roles.Role): (b: bool)
    ensures b <==> userRole in {Roles.Owner, Roles.Admin, Roles.TeamLead} &&
                   (teamId, userId) in members && members[(teamId, userId)].roleInTeam in {Owner, Admin}
  {
    if userRole in {Roles.Owner, Roles.Admin, Roles.TeamLead} then
      if (teamId, userId) !in members then false
      else members[(teamId, userId)].roleInTeam in {Owner, Admin}
    else false
  }

  /** `canUserInviteMembers` is stricter than the gate `inviteToTeam` applies. */
  lemma CanInviteImpliesInviteGate(members: MemberTable, teamId: TeamId, userId: UserId, userRole: Roles.Role)
    requires CanUserInviteMembers(members, teamId, userId, userRole)
    ensures InviteGate(members, teamId, userId)
  {
  }

  /** ... and strictly so: a TEAM_LEAD of the team passes the invite gate, yet
      `canUserInviteMembers` answers false for it whatever its system role. */
  lemma TeamLeadPassesGateOnly(members: MemberTable, teamId: TeamId, userId: UserId, userRole: Roles.Role)
    requires (teamId, userId) in members && members[(teamId, userId)].roleInTeam == TeamLead
    ensures InviteGate(members, teamId, userId)
    ensures !CanUserInviteMembers(members, teamId, userId, userRole)
  {
  }

  /** `getUserTeams`: every team in which the user has a row, with all its rows. */
  function GetUserTeams(teams: TeamTable, members: MemberTable, userId: UserId): (r: map<TeamId, TeamWithMembers>)
    ensures forall t :: t in r <==> t in teams && (t, userId) in members
    ensures forall t :: t in r ==> r[t].team == teams[t] && r[t].members == TeamRows(members, t)
  {
    map t | t in teams && (t, userId) in members :: TeamWithMembers(teams[t], TeamRows(members, t))
  }

  /** The listing order: lower role rank first, then earlier `joinedAt`. */
  predicate ListedBefore(a: MemberRow, b: MemberRow) {
    Rank(a.roleInTeam) < Rank(b.roleInTeam) ||
    (Rank(a.roleInTeam) == Rank(b.roleInTeam) && a.joinedAt <= b.joinedAt)
  }

  ghost predicate ListOrdered(s: seq<MemberRow>) {
    forall i, j :: 0 <= i < j < |s| ==> ListedBefore(s[i], s[j])
  }

  lemma ListedBeforeTransitive(a: MemberRow, b: MemberRow, c: MemberRow)
    requires ListedBefore(a, b) && ListedBefore(b, c)
    ensures ListedBefore(a, c)
  {
  }

  /** Every non-empty set of rows has a row that may be listed before all others. */
  lemma {:induction false} FirstRow(s: set<MemberRow>) returns (x: MemberRow)
    requires s != {}
    ensures x in s && forall y :: y in s ==> ListedBefore(x, y)
    decreases s
  {
    var a :| a in s;
    if s - {a} == {} {
      forall y | y in s ensures ListedBefore(a, y) {
        assert y !in s - {a};
      }
      return a;
    }
    var m := FirstRow(s - {a});
    if ListedBefore(a, m) {
      forall y | y in s ensures ListedBefore(a, y) {
        if y != a {
          assert y in s - {a};
          ListedBeforeTransitive(a, m, y);
        }
      }
      return a;
    }
    forall y | y in s ensures ListedBefore(m, y) {
      if y != a { assert y in s - {a}; }
    }
    return m;
  }

  lemma FirstRowExists(s: set<MemberRow>)
    requires s != {}
    ensures exists x :: x in s && forall y :: y in s ==> ListedBefore(x, y)
  {
    var x := FirstRow(s);
  }

  /** A row listed before every row of an ordered, duplicate-free listing that
      does not contain it can head that listing. */
  lemma PrependFirst(x: MemberRow, rest: seq<MemberRow>)
    requires ListOrdered(rest) && x !in rest
    requires forall i, j :: 0 <= i < j < |rest| ==> rest[i] != rest[j]
    requires forall j :: 0 <= j < |rest| ==> ListedBefore(x, rest[j])
    ensures ListOrdered([x] + rest)
    ensures forall i, j :: 0 <= i < j < |[x] + rest| ==> ([x] + rest)[i] != ([x] + rest)[j]
  {
    var r := [x] + rest;
    forall i, j | 0 <= i < j < |r| ensures ListedBefore(r[i], r[j]) && r[i] != r[j] {
      if i > 0 {
        assert r[i] == rest[i - 1] && r[j] == rest[j - 1];
      } else {
        assert r[j] == rest[j - 1];
      }
    }
  }

  /** The rows of `s` in listing order, each exactly once. */
  ghost function SortedForListing(s: set<MemberRow>): (r: seq<MemberRow>)
    ensures forall x :: x in r <==> x in s
    ensures |r| == |s|
    ensures forall i, j :: 0 <= i < j < |r| ==> r[i] != r[j]
    ensures ListOrdered(r)
    decreases s
  {
    if s == {} then []
    else
      FirstRowExists(s);
      var x :| x in s && forall y :: y in s ==> ListedBefore(x, y);
      var rest := SortedForListing(s - {x});
      assert forall j :: 0 <= j < |rest| ==> ListedBefore(x, rest[j]) by {
        forall j | 0 <= j < |rest| ensures ListedBefore(x, rest[j]) {
          assert rest[j] in s - {x};
        }
      }
      PrependFirst(x, rest);
      [x] + rest
  }

  /** `getTeamMembers`: refused to a non-member; otherwise every row of the team,
      once each, ordered by role rank and then by `joinedAt`. It reads the tables
      and changes nothing, so two calls on the same tables agree. */
  ghost function GetTeamMembers(members: MemberTable, teamId: TeamId, requesterId: UserId): (r: Result<seq<MemberRow>, TeamError>)
    ensures r.Failure? <==> (teamId, requesterId) !in members
    ensures r.Failure? ==> r.error == NotTeamMember
    ensures r.Success? ==>
      && (forall row :: row in r.value <==> row in TeamRows(members, teamId))
      && (forall i, j :: 0 <= i < j < |r.value| ==> r.value[i] != r.value[j])
      && ListOrdered(r.value)
  {
    if (teamId, requesterId) !in members then Failure(NotTeamMember)
    else Success(SortedForListing(TeamRows(members, teamId)))
  }

  /** In consistent tables, the teams `getUserTeams` lists for a user are exactly
      those whose members that user may list, and both give the same rows. */
  lemma UserTeamsAreListable(teams: TeamTable, members: MemberTable, userId: UserId, t: TeamId)
    requires Consistent(teams, members)
    ensures t in GetUserTeams(teams, members, userId) <==> GetTeamMembers(members, t, userId).Success?
    ensures t in GetUserTeams(teams, members, userId) ==>
      forall row :: row in GetTeamMembers(members, t, userId).value <==> row in GetUserTeams(teams, members, userId)[t].members
  {
  }

  /** When the team has an OWNER row, the listing starts with an OWNER row. */
  lemma OwnerListedFirst(members: MemberTable, teamId: TeamId, requesterId: UserId, ownerId: UserId)
    requires (teamId, requesterId) in members
    requires (teamId, ownerId) in members && members[(teamId, ownerId)].roleInTeam == Owner
    ensures GetTeamMembers(members, teamId, requesterId).Success?
    ensures var listed := GetTeamMembers(members, teamId, requesterId).value;
      |listed| > 0 && listed[0].roleInTeam == Owner
  {
    var listed := GetTeamMembers(members, teamId, requesterId).value;
    var row := members[(teamId, ownerId)];
    assert row in TeamRows(members, teamId);
    var j :| 0 <= j < |listed| && listed[j] == row;
    if j > 0 {
      assert ListedBefore(listed[0], listed[j]);
    }
  }

  /** Changing a non-OWNER row to a non-OWNER role leaves every team's OWNER rows as they were. */
  lemma OwnerRowsUnchangedByRoleChange(members: MemberTable, k: (TeamId, UserId), row: MemberRow)
    requires k in members && members[k].roleInTeam != Owner && row.roleInTeam != Owner
    ensures forall t :: OwnerRows(members[k := row], t) == OwnerRows(members, t)
  {
    forall t ensures OwnerRows(members[k := row], t) == OwnerRows(members, t) {
      assert k !in OwnerRows(members, t);
    }
  }

  /** Deleting a non-OWNER row leaves every team's OWNER rows as they were. */
  lemma OwnerRowsUnchangedByRemoval(members: MemberTable, k: (TeamId, UserId))
    requires k in members && members[k].roleInTeam != Owner
    ensures forall t :: OwnerRows(members - {k}, t) == OwnerRows(members, t)
  {
    forall t ensures OwnerRows(members - {k}, t) == OwnerRows(members, t) {
      assert k !in OwnerRows(members, t);
    }
  }

  /** Adding a row whose role is OWNER for a new (team, user) pair gives that team
      one OWNER row more: the service does not stop an invitation with role OWNER. */
  lemma OwnerInviteAddsOwner(members: MemberTable, k: (TeamId, UserId), row: MemberRow)
    requires k !in members && row.roleInTeam == Owner
    ensures OwnerRows(members[k := row], k.0) == OwnerRows(members, k.0) + {k}
    ensures |OwnerRows(members[k := row], k.0)| == |OwnerRows(members, k.0)| + 1
  {
    assert k !in OwnerRows(members, k.0);
    assert OwnerRows(members[k := row], k.0) == OwnerRows(members, k.0) + {k};
  }

  /** Adding a fresh team together with its creator's OWNER row keeps the tables
      consistent and single-owner, and that row is the team's only member row. */
  lemma AddTeamKeepsInvariants(teams: TeamTable, members: MemberTable, team: Team, row: MemberRow)
    requires Consistent(teams, members) && team.id !in teams
    requires row == MemberRow(team.id, team.ownerId, Owner, row.assignedBy, row.joinedAt, row.updatedAt)
    ensures Consistent(teams[team.id := team], members[(team.id, team.ownerId) := row])
    ensures TeamRows(members[(team.id, team.ownerId) := row], team.id) == {row}
    ensures SingleOwner(teams, members) ==> SingleOwner(teams[team.id := team], members[(team.id, team.ownerId) := row])
  {
    var members' := members[(team.id, team.ownerId) := row];
    assert forall k :: k in members ==> k.0 != team.id;
    forall x | x in TeamRows(members', team.id) ensures x == row {
      var u :| (team.id, u) in members' && members'[(team.id, u)] == x;
    }
    assert row in TeamRows(members', team.id);
  }

  /** The `Team` and `TeamMember` tables. */
  class TeamsService {
    var teams: TeamTable
    var members: MemberTable
    /** The id the next created team receives. */
    var nextTeamId: nat

    ghost predicate Valid()
      reads this
    {
      Consistent(teams, members) && forall t :: t in teams ==> t < nextTeamId
    }

    constructor ()
      ensures Valid() && teams == map[] && members == map[]
    {
      teams := map[];
      members := map[];
      nextTeamId := 0;
    }

    /** `createTeam`: insert the team with the user as `ownerId` and, in the same
        transaction, the user's OWNER row assigned by the user. */
    method CreateTeam(name: string, userId: UserId, now: Time) returns (team: Team)
      requires Valid()
      modifies this
      ensures Valid()
      ensures team == Team(old(nextTeamId), name, userId) && team.id !in old(teams)
      ensures nextTeamId == old(nextTeamId) + 1
      ensures teams == old(teams)[team.id := team]
      ensures members == old(members)[(team.id, userId) := MemberRow(team.id, userId, Owner, userId, now, now)]
      ensures TeamRows(members, team.id) == {MemberRow(team.id, userId, Owner, userId, now, now)}
      ensures IsTeamCreator(teams, team.id, userId)
      ensures forall other :: other != userId ==> !IsTeamCreator(teams, team.id, other)
      ensures old(SingleOwner(teams, members)) ==> SingleOwner(teams, members)
    {
      team := Team(nextTeamId, name, userId);
      var row := MemberRow(team.id, userId, Owner, userId, now, now);
      AddTeamKeepsInvariants(teams, members, team, row);
      teams := teams[team.id := team];
      members := members[(team.id, userId) := row];
      nextTeamId := nextTeamId + 1;
    }

    /** `inviteToTeam`: the first failing check decides the error: the inviter must
        hold OWNER, ADMIN or TEAM_LEAD in the team, the email must name a user, and
        that user must not be in the team yet. Then exactly one row is added, with
        the given role (MEMBER by default) and assigned by the inviter. The role is
        not checked: an invitation with role OWNER is accepted. */
    method InviteToTeam(teamId: TeamId, userEmail: string, inviterId: UserId,
                        userIdByEmail: map<string, UserId>, now: Time, roleInTeam: TeamRole := Member)
      returns (r: Result<MemberRow, TeamError>)
      requires Valid()
      modifies this
      ensures Valid() && teams == old(teams) && nextTeamId == old(nextTeamId)
      ensures !InviteGate(old(members), teamId, inviterId) ==> r == Failure(NotLeaderOrAdmin)
      ensures InviteGate(old(members), teamId, inviterId) && userEmail !in userIdByEmail ==> r == Failure(UserNotFound)
      ensures (InviteGate(old(members), teamId, inviterId) && userEmail in userIdByEmail &&
               (teamId, userIdByEmail[userEmail]) in old(members)) ==> r == Failure(AlreadyMember)
      ensures r.Success? <==> InviteGate(old(members), teamId, inviterId) && userEmail in userIdByEmail &&
                              (teamId, userIdByEmail[userEmail]) !in old(members)
      ensures r.Failure? ==> members == old(members)
      ensures r.Success? ==>
        var row := MemberRow(teamId, userIdByEmail[userEmail], roleInTeam, inviterId, now, now);
        (teamId, row.userId) !in old(members) && r.value == row && members == old(members)[(teamId, row.userId) := row]
      ensures roleInTeam != Owner && old(SingleOwner(teams, members)) ==> SingleOwner(teams, members)
    {
      if !InviteGate(members, teamId, inviterId) {
        return Failure(NotLeaderOrAdmin);
      }
      if userEmail !in userIdByEmail {
        return Failure(UserNotFound);
      }
      var userId := userIdByEmail[userEmail];
      if (teamId, userId) in members {
        return Failure(AlreadyMember);
      }
      var row := MemberRow(teamId, userId, roleInTeam, inviterId, now, now);
      members := members[(teamId, userId) := row];
      r := Success(row);
    }

    /** `updateMemberRole`: only the team's OWNER may change roles, the target must
        be a member, its role must not be OWNER and the new role must not be OWNER;
        then only that row's role and `updatedAt` change. */
    method UpdateMemberRole(teamId: TeamId, userId: UserId, newRole: TeamRole, requesterId: UserId, now: Time)
      returns (r: Result<MemberRow, TeamError>)
      requires Valid()
      modifies this
      ensures Valid() && teams == old(teams) && nextTeamId == old(nextTeamId)
      ensures !((teamId, requesterId) in old(members) && old(members)[(teamId, requesterId)].roleInTeam == Owner) ==>
        r == Failure(NotTeamOwner)
      ensures (teamId, requesterId) in old(members) && old(members)[(teamId, requesterId)].roleInTeam == Owner ==>
        && ((teamId, userId) !in old(members) ==> r == Failure(MemberNotFound))
        && ((teamId, userId) in old(members) && old(members)[(teamId, userId)].roleInTeam == Owner ==> r == Failure(CannotChangeOwnerRole))
        && ((teamId, userId) in old(members) && old(members)[(teamId, userId)].roleInTeam != Owner && newRole == Owner ==>
              r == Failure(CannotAssignOwner))
      ensures r.Success? <==>
        && (teamId, requesterId) in old(members) && old(members)[(teamId, requesterId)].roleInTeam == Owner
        && (teamId, userId) in old(members) && old(members)[(teamId, userId)].roleInTeam != Owner
        && newRole != Owner
      ensures r.Failure? ==> members == old(members)
      ensures r.Success? ==>
        var row := old(members)[(teamId, userId)].(roleInTeam := newRole, updatedAt := now);
        r.value == row && members == old(members)[(teamId, userId) := row]
      ensures forall t :: OwnerRows(members, t) == OwnerRows(old(members), t)
      ensures old(SingleOwner(teams, members)) ==> SingleOwner(teams, members)
    {
      if (teamId, requesterId) !in members || members[(teamId, requesterId)].roleInTeam != Owner {
        return Failure(NotTeamOwner);
      }
      if (teamId, userId) !in members {
        return Failure(MemberNotFound);
      }
      var target := members[(teamId, userId)];
      if target.roleInTeam == Owner {
        return Failure(CannotChangeOwnerRole);
      }
      if newRole == Owner {
        return Failure(CannotAssignOwner);
      }
      var row := target.(roleInTeam := newRole, updatedAt := now);
      OwnerRowsUnchangedByRoleChange(members, (teamId, userId), row);
      members := members[(teamId, userId) := row];
      r := Success(row);
    }

    /** `removeMember`: the requester must be a member and the target must exist
        and not be OWNER; a requester who is not OWNER may only remove itself.
        Then exactly the target's row is deleted and returned. */
    method RemoveMember(teamId: TeamId, userId: UserId, requesterId: UserId)
      returns (r: Result<MemberRow, TeamError>)
      requires Valid()
      modifies this
      ensures Valid() && teams == old(teams) && nextTeamId == old(nextTeamId)
      ensures (teamId, requesterId) !in old(members) ==> r == Failure(NotTeamMember)
      ensures (teamId, requesterId) in old(members) ==>
        && ((teamId, userId) !in old(members) ==> r == Failure(MemberNotFound))
        && ((teamId, userId) in old(members) && old(members)[(teamId, userId)].roleInTeam == Owner ==> r == Failure(CannotRemoveOwner))
        && ((teamId, userId) in old(members) && old(members)[(teamId, userId)].roleInTeam != Owner &&
            old(members)[(teamId, requesterId)].roleInTeam != Owner && requesterId != userId ==>
              r == Failure(OnlyOwnerRemovesOthers))
      ensures r.Success? <==>
        && (teamId, requesterId) in old(members) && (teamId, userId) in old(members)
        && old(members)[(teamId, userId)].roleInTeam != Owner
        && (old(members)[(teamId, requesterId)].roleInTeam == Owner || requesterId == userId)
      ensures r.Failure? ==> members == old(members)
      ensures r.Success? ==> r.value == old(members)[(teamId, userId)] && members == old(members) - {(teamId, userId)}
      ensures forall t :: OwnerRows(members, t) == OwnerRows(old(members), t)
      ensures old(SingleOwner(teams, members)) ==> SingleOwner(teams, members)
    {
      if (teamId, requesterId) !in members {
        return Failure(NotTeamMember);
      }
      var requester := members[(teamId, requesterId)];
      if (teamId, userId) !in members {
        return Failure(MemberNotFound);
      }
      var target := members[(teamId, userId)];
      if target.roleInTeam == Owner {
        return Failure(CannotRemoveOwner);
      }
      if requester.roleInTeam != Owner && requesterId != userId {
        return Failure(OnlyOwnerRemovesOthers);
      }
      OwnerRowsUnchangedByRemoval(members, (teamId, userId));
      members := members - {(teamId, userId)};
      r := Success(target);
    }
  }

  /** A user creates a team, invites a second user, fails to invite it twice,
      cannot change the owner's role, and the owner then removes it again. */
  method InviteAndRemoveScenario(a: UserId, b: UserId)
    requires a != b
  {
    var service := new TeamsService();
    var team := service.CreateTeam("T", a, 0);
    var ownerRow := MemberRow(team.id, a, Owner, a, 0, 0);
    assert service.members == map[(team.id, a) := ownerRow];
    var directory := map["b@example.com" := b];
    var invited := service.InviteToTeam(team.id, "b@example.com", a, directory, 1);
    var memberRow := MemberRow(team.id, b, Member, a, 1, 1);
    assert invited == Success(memberRow);
    assert service.members == map[(team.id, a) := ownerRow, (team.id, b) := memberRow];
    var again := service.InviteToTeam(team.id, "b@example.com", a, directory, 2);
    assert again == Failure(AlreadyMember);
    var byMember := service.UpdateMemberRole(team.id, a, Admin, b, 3);
    assert byMember == Failure(NotTeamOwner);
    var removed := service.RemoveMember(team.id, b, a);
    assert removed.Success?;
    assert service.members == map[(team.id, a) := ownerRow];
  }
}
