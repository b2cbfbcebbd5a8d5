/**
 * The role-to-permission table of `seed-permissions.ts`: the list of
 * permission names, the constant map from system role to its permissions,
 * and the seeding routine that clears the `RolePermission` table and inserts
 * one row per (role, permission) pair.
 */
module Permissions {
  import opened Roles

  /** The 17 permission names, in the order of the `permissions` list; none is listed twice. */
  function AllPermissions(): (ps: seq<string>)
    ensures |ps| == 17 && Distinct(ps)
  {
    [
    "create_project", "delete_project", "manage_users", "assign_tasks",
    "reassign_tasks", "update_task_status", "delete_tasks", "view_all_tasks",
    "view_assigned_tasks", "create_tasks", "edit_task_details", "manage_team_settings",
    "view_analytics", "billing_management", "invite_users", "remove_users",
    "change_user_roles"
    ]
  }

  /** The entry of `rolePermissions` for one role, in its listed order. */
  function RolePermissions(role: Role): (perms: seq<string>)
    ensures perms != []
    ensures "view_assigned_tasks" in perms <==> role in {Developer, Tester, Member}
  {
    match role
    case Owner => [
      "create_project", "delete_project", "manage_users", "assign_tasks",
      "reassign_tasks", "update_task_status", "delete_tasks", "view_all_tasks",
      "create_tasks", "edit_task_details", "manage_team_settings", "view_analytics",
      "billing_management", "invite_users", "remove_users", "change_user_roles"]
    case Admin => [
      "create_project", "manage_users", "assign_tasks", "reassign_tasks",
      "update_task_status", "delete_tasks", "view_all_tasks", "create_tasks",
      "edit_task_details", "manage_team_settings", "view_analytics",
      "invite_users", "remove_users", "change_user_roles"]
    case TeamLead => [
      "create_project", "assign_tasks", "update_task_status", "view_all_tasks",
      "create_tasks", "edit_task_details", "view_analytics"]
    case Developer => ["view_assigned_tasks", "edit_task_details", "create_tasks"]
    case Tester => ["view_assigned_tasks", "edit_task_details", "update_task_status"]
    case Member => ["view_assigned_tasks"]
  }

  /** The permissions of a role as a set. */
  function PermissionSet(role: Role): set<string> {
    set p | p in RolePermissions(role)
  }

  /** The order in which `Object.entries(rolePermissions)` visits the roles. */
  const SeedOrder: seq<Role> := [Owner, Admin, TeamLead, Developer, Tester, Member]

  /** A row of the `RolePermission` table. */
  datatype RolePermissionRow = RolePermissionRow(role: Role, permission: string, canAccess: bool)

  /** The rows the inner loop inserts for `role` and the permission names `perms`. */
  function RowsFor(role: Role, perms: seq<string>): (rows: seq<RolePermissionRow>)
    ensures |rows| == |perms|
    ensures forall k :: 0 <= k < |rows| ==> rows[k] == RolePermissionRow(role, perms[k], true)
  {
    if perms == [] then [] else RowsFor(role, perms[..|perms| - 1]) + [RolePermissionRow(role, perms[|perms| - 1], true)]
  }

  /** The rows the outer loop inserts for the roles `roles`, in order. */
  function SeedRows(roles: seq<Role>): (rows: seq<RolePermissionRow>)
    ensures |rows| == Sum(roles)
    ensures forall k :: 0 <= k < |rows| ==> rows[k].canAccess && rows[k].role in roles
  {
    if roles == [] then []
    else SeedRows(roles[..|roles| - 1]) + RowsFor(roles[|roles| - 1], RolePermissions(roles[|roles| - 1]))
  }

  ghost predicate Distinct<T>(s: seq<T>) {
    forall i, j :: 0 <= i < j < |s| ==> s[i] != s[j]
  }

  /** Every permission any role holds is one of the listed permission names. */
  lemma RolePermissionsAreListed(role: Role)
    ensures forall p :: p in RolePermissions(role) ==> p in AllPermissions()
  {
  }

  /** MEMBER holds exactly `view_assigned_tasks`; DEVELOPER and TESTER hold it too. */
  lemma MemberPermissions()
    ensures PermissionSet(Member) == {"view_assigned_tasks"}
    ensures "view_assigned_tasks" in PermissionSet(Developer)
    ensures "view_assigned_tasks" in PermissionSet(Tester)
  {
  }

  /** The tiers nest: TEAM_LEAD's permissions are ADMIN's, and ADMIN's are OWNER's. */
  lemma TiersNest()
    ensures PermissionSet(TeamLead) <= PermissionSet(Admin)
    ensures PermissionSet(Admin) <= PermissionSet(Owner)
  {
  }

  /** OWNER holds every listed permission except `view_assigned_tasks`. */
  lemma OwnerHoldsAllButViewAssigned()
    ensures PermissionSet(Owner) == (set p | p in AllPermissions()) - {"view_assigned_tasks"}
  {
  }

  /** No role lists a permission twice. */
  lemma RoleListsDistinct(role: Role)
    ensures Distinct(RolePermissions(role))
  {
    match role
    case Owner => OwnerListDistinct();
    case Admin => AdminListDistinct();
    case _ =>
  }

  lemma OwnerListDistinct()
    ensures Distinct(RolePermissions(Owner))
  {
  }

  lemma AdminListDistinct()
    ensures Distinct(RolePermissions(Admin))
  {
  }

  /** A row belongs to `SeedRows(roles)` exactly when its role is one of `roles`,
      its permission is in that role's list and it grants access. */
  lemma {:induction false} SeedRowsMembership(roles: seq<Role>, row: RolePermissionRow)
    ensures row in SeedRows(roles) <==>
      row.role in roles && row.permission in RolePermissions(row.role) && row.canAccess
  {
    if roles != [] {
      var init, last := roles[..|roles| - 1], roles[|roles| - 1];
      assert roles == init + [last];
      SeedRowsMembership(init, row);
      RowsForMembership(last, RolePermissions(last), row);
    }
  }

  /** A row belongs to `RowsFor(role, perms)` exactly when it is `(role, p, true)` for a `p` of `perms`. */
  lemma RowsForMembership(role: Role, perms: seq<string>, row: RolePermissionRow)
    ensures row in RowsFor(role, perms) <==> row.role == role && row.permission in perms && row.canAccess
  {
    var tail := RowsFor(role, perms);
    if row in tail {
      var k :| 0 <= k < |tail| && tail[k] == row;
    }
    if row.role == role && row.permission in perms && row.canAccess {
      var k :| 0 <= k < |perms| && perms[k] == row.permission;
      assert tail[k] == row;
    }
  }

  /** Seeding distinct roles inserts no pair twice, and one row per listed pair. */
  lemma {:induction false} SeedRowsDistinct(roles: seq<Role>)
    requires Distinct(roles)
    ensures Distinct(SeedRows(roles))
    ensures |SeedRows(roles)| == Sum(roles)
  {
    if roles != [] {
      var init, last := roles[..|roles| - 1], roles[|roles| - 1];
      SeedRowsDistinct(init);
      RoleListsDistinct(last);
      var head, tail := SeedRows(init), RowsFor(last, RolePermissions(last));
      forall i, j | 0 <= i < j < |head + tail|
        ensures (head + tail)[i] != (head + tail)[j]
      {
        if j >= |head| && i < |head| {
          SeedRowsMembership(init, head[i]);
          assert head[i] in head;
          assert last !in init;
        }
      }
    }
  }

  /** The number of pairs the seeding inserts for `roles`. */
  function Sum(roles: seq<Role>): nat {
    if roles == [] then 0 else Sum(roles[..|roles| - 1]) + |RolePermissions(roles[|roles| - 1])|
  }

  /** The role table lists 44 (role, permission) pairs. */
  lemma SeedPairCount()
    ensures Sum(SeedOrder) == 44
  {
    var r1, r2, r3 := [Owner], [Owner, Admin], [Owner, Admin, TeamLead];
    var r4, r5 := r3 + [Developer], r3 + [Developer, Tester];
    assert r2[..1] == r1 && r3[..2] == r2 && r4[..3] == r3 && r5[..4] == r4 && SeedOrder[..5] == r5;
    assert Sum(r1) == 16 && Sum(r2) == 30 && Sum(r3) == 37 && Sum(r4) == 40 && Sum(r5) == 43;
  }

  /** The seeding visits every role exactly once. */
  lemma SeedOrderCoversRoles()
    ensures Distinct(SeedOrder)
    ensures forall role :: role in SeedOrder
  {
    forall role ensures role in SeedOrder {
      match role
      case Owner => assert SeedOrder[0] == role;
      case Admin => assert SeedOrder[1] == role;
      case TeamLead => assert SeedOrder[2] == role;
      case Developer => assert SeedOrder[3] == role;
      case Tester => assert SeedOrder[4] == role;
      case Member => assert SeedOrder[5] == role;
    }
  }

  /** After seeding, the table holds one row per listed (role, permission) pair,
      each granting access, 44 rows in all and no duplicate. */
  lemma SeedTableExact()
    ensures |SeedRows(SeedOrder)| == 44
    ensures Distinct(SeedRows(SeedOrder))
    ensures forall row :: row in SeedRows(SeedOrder) <==>
      row.permission in RolePermissions(row.role) && row.canAccess
  {
    SeedOrderCoversRoles();
    SeedRowsDistinct(SeedOrder);
    SeedPairCount();
    forall row ensures row in SeedRows(SeedOrder) <==>
      row.permission in RolePermissions(row.role) && row.canAccess
    {
      SeedRowsMembership(SeedOrder, row);
    }
  }

  /** One more pass of the inner seeding loop appends one row. */
  lemma RowsForExtend(role: Role, perms: seq<string>, j: nat)
    requires j < |perms|
    ensures RowsFor(role, perms[..j + 1]) == RowsFor(role, perms[..j]) + [RolePermissionRow(role, perms[j], true)]
  {
    assert perms[..j + 1][..j] == perms[..j];
  }

  /** One more pass of the outer seeding loop appends that role's rows. */
  lemma SeedRowsExtend(roles: seq<Role>, i: nat)
    requires i < |roles|
    ensures SeedRows(roles[..i + 1]) == SeedRows(roles[..i]) + RowsFor(roles[i], RolePermissions(roles[i]))
  {
    assert roles[..i + 1][..i] == roles[..i];
  }

  /** The `RolePermission` table. */
  class RolePermissionTable {
    var rows: seq<RolePermissionRow>

    constructor ()
      ensures rows == []
    {
      rows := [];
    }

    /** `seedRolePermissions`: delete every row, then insert one row per pair
        in the order of the role table. Whatever the table held before, it
        ends up the same, so seeding twice yields the table seeding once does. */
    method SeedRolePermissions()
      modifies this
      ensures rows == SeedRows(SeedOrder)
    {
      rows := [];
      for i := 0 to |SeedOrder|
        invariant rows == SeedRows(SeedOrder[..i])
      {
        InsertRolePermissions(SeedOrder[i], RolePermissions(SeedOrder[i]));
        SeedRowsExtend(SeedOrder, i);
      }
      assert SeedOrder[..|SeedOrder|] == SeedOrder;
    }

    /** The inner loop of `seedRolePermissions`: one row per permission of `role`. */
    method InsertRolePermissions(role: Role, perms: seq<string>)
      modifies this
      ensures rows == old(rows) + RowsFor(role, perms)
    {
      for j := 0 to |perms|
        invariant rows == old(rows) + RowsFor(role, perms[..j])
      {
        RowsForExtend(role, perms, j);
        rows := rows + [RolePermissionRow(role, perms[j], true)];
      }
      assert perms[..|perms|] == perms;
    }
  }
}
