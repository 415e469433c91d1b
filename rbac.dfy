/** Role and permission evaluation (src/lib/utils/rbac.ts): a four-level role
    ranking, a constant role-to-grant table with `*` wildcards, and the two
    checks the user interface gates on. The signed-in user is reduced to the
    one thing the checks read, the `role` entry of its metadata. */
module Rbac {
  import opened Basics

  datatype Role = SuperAdmin | Admin | Manager | User

  /** An (action, subject) pair; on the grant side either may be `*`. */
  datatype Permission = Permission(action: string, subject: string)

  /** The authenticated principal as the checks see it: the `role` entry of
      its metadata, absent or a string. */
  datatype Principal = Principal(metadataRole: Option<string>)

  /** Why a check could not give an answer. */
  datatype RbacError = UnknownRoleLookup(role: string)

  const Wildcard: string := "*"

  /** The privilege ranking `roleHierarchy`. */
  function Rank(r: Role): (n: nat)
    ensures 1 <= n <= 4
    ensures n == 4 <==> r == SuperAdmin
    ensures n == 1 <==> r == User
  {
    match r
    case SuperAdmin => 4
    case Admin => 3
    case Manager => 2
    case User => 1
  }

  /** The role names as stored in the metadata. */
  function RoleName(r: Role): string
  {
    match r
    case SuperAdmin => "super_admin"
    case Admin => "admin"
    case Manager => "manager"
    case User => "user"
  }

  /** Looks a stored role name up in the tables; any other string is not a
      key of either table. */
  function ParseRole(s: string): (r: Option<Role>)
    ensures r.Some? ==> RoleName(r.value) == s
    ensures (exists role :: RoleName(role) == s) ==> r.Some?
  {
    if s == "super_admin" then Some(SuperAdmin)
    else if s == "admin" then Some(Admin)
    else if s == "manager" then Some(Manager)
    else if s == "user" then Some(User)
    else None
  }

  /** The constant grant table `permissions`. */
  function Grants(r: Role): seq<Permission>
  {
    match r
    case SuperAdmin => [Permission(Wildcard, Wildcard)]
    case Admin => [
      Permission("create", Wildcard),
      Permission("read", Wildcard),
      Permission("update", Wildcard),
      Permission("delete", Wildcard)]
    case Manager => [
      Permission("create", "survey"),
      Permission("read", "survey"),
      Permission("update", "survey"),
      Permission("read", "response"),
      Permission("read", "group"),
      Permission("update", "group")]
    case User => [
      Permission("read", "survey"),
      Permission("create", "response"),
      Permission("read", "response")]
  }

  /** `getUserRole`: the metadata role, or `user` when it is absent or the
      empty string. A non-empty string passes through unchecked. */
  function GetUserRole(p: Principal): (name: string)
    ensures name == "user" <==> p.metadataRole.None? || p.metadataRole.value in {"", "user"}
    ensures name != "user" ==> name == p.metadataRole.value
  {
    match p.metadataRole
    case None => "user"
    case Some(s) => if s == "" then "user" else s
  }

  /** `hasRole`: no principal is refused; a role name outside the table has
      no rank, and comparing with a missing rank is false. */
  function HasRole(u: Option<Principal>, required: Role): (r: bool)
    ensures r <==> u.Some? && ParseRole(GetUserRole(u.value)).Some? &&
                   Rank(ParseRole(GetUserRole(u.value)).value) >= Rank(required)
  {
    match u
    case None => false
    case Some(p) =>
      match ParseRole(GetUserRole(p))
      case None => false
      case Some(role) => Rank(role) >= Rank(required)
  }

  /** One grant of the table matches a requested permission, written as the
      four alternatives of the source. */
  predicate GrantMatches(g: Permission, p: Permission)
  {
    || (g.action == Wildcard && g.subject == Wildcard)
    || (g.action == Wildcard && g.subject == p.subject)
    || (g.action == p.action && g.subject == Wildcard)
    || (g.action == p.action && g.subject == p.subject)
  }

  /** `grants.some(g => GrantMatches(g, p))`, scanning from the front. */
  function AnyGrantMatches(grants: seq<Permission>, p: Permission): bool
  {
    if |grants| == 0 then false
    else GrantMatches(grants[0], p) || AnyGrantMatches(grants[1..], p)
  }

  /** `hasPermission` as written: no principal is refused; a role name that
      is not a key of the table yields `undefined`, and calling `some` on it
      throws. */
  function HasPermission(u: Option<Principal>, p: Permission): (r: Result<bool, RbacError>)
    ensures u.None? ==> r == Ok(false)
    ensures r.Err? <==> u.Some? && ParseRole(GetUserRole(u.value)).None?
  {
    match u
    case None => Ok(false)
    case Some(pr) =>
      var name := GetUserRole(pr);
      match ParseRole(name)
      case None => Err(UnknownRoleLookup(name))
      case Some(role) => Ok(AnyGrantMatches(Grants(role), p))
  }

  /** `hasPermission` with a role name outside the table refused (`false`)
      instead of throwing, the fail-closed reading that `hasRole` already
      follows. */
  function HasPermissionFailClosed(u: Option<Principal>, p: Permission): (r: bool)
    ensures r ==> u.Some? && ParseRole(GetUserRole(u.value)).Some?
    ensures HasPermission(u, p).Ok? ==> r == HasPermission(u, p).value
  {
    match HasPermission(u, p)
    case Ok(b) => b
    case Err(_) => false
  }

  /** The principal with a given role stored in its metadata. */
  function WithRole(r: Role): Principal
  {
    Principal(Some(RoleName(r)))
  }

  // ---------------------------------------------------------------------
  // Role checks

  /** No principal passes any role check. */
  lemma HasRoleNoPrincipal(r: Role)
    ensures !HasRole(None, r)
  {
  }

  /** For a stored role of the table, the role check is the rank comparison. */
  lemma HasRoleIsRank(held: Role, required: Role)
    ensures HasRole(Some(WithRole(held)), required) <==> Rank(held) >= Rank(required)
  {
    assert ParseRole(GetUserRole(WithRole(held))) == Some(held);
  }

  /** An absent or empty metadata role is read as `user`. */
  lemma MissingRoleIsUser(p: Principal, required: Role)
    requires p.metadataRole.None? || p.metadataRole == Some("")
    ensures HasRole(Some(p), required) <==> required == User
  {
  }

  /** A non-empty role name outside the table fails every role check, even
      the lowest. */
  lemma UnknownRoleDenied(p: Principal, required: Role)
    requires p.metadataRole.Some? && p.metadataRole.value != ""
    requires forall r: Role :: RoleName(r) != p.metadataRole.value
    ensures !HasRole(Some(p), required)
  {
  }

  /** The ranking is the strict chain user < manager < admin < super_admin. */
  lemma RankChain()
    ensures Rank(User) < Rank(Manager) < Rank(Admin) < Rank(SuperAdmin)
  {
  }

  /** The role check is reflexive, transitive and total over the table's
      roles, and the highest role passes every check. */
  lemma HasRoleOrder(a: Role, b: Role, c: Role)
    ensures HasRole(Some(WithRole(a)), a)
    ensures HasRole(Some(WithRole(a)), b) || HasRole(Some(WithRole(b)), a)
    ensures HasRole(Some(WithRole(a)), b) && HasRole(Some(WithRole(b)), c) ==> HasRole(Some(WithRole(a)), c)
    ensures HasRole(Some(WithRole(SuperAdmin)), a)
  {
    HasRoleIsRank(a, a);
    HasRoleIsRank(a, b);
    HasRoleIsRank(b, c);
    HasRoleIsRank(a, c);
    HasRoleIsRank(SuperAdmin, a);
    HasRoleIsRank(b, a);
  }

  // ---------------------------------------------------------------------
  // Permission checks

  /** The four-way test is the same as "each half of the grant is `*` or
      equal to the request". */
  lemma GrantMatchesIff(g: Permission, p: Permission)
    ensures GrantMatches(g, p) <==>
      (g.action == Wildcard || g.action == p.action) && (g.subject == Wildcard || g.subject == p.subject)
  {
  }

  /** `some` is existential: a grant list matches exactly when one of its
      grants does. */
  lemma {:induction false} AnyGrantMatchesExists(grants: seq<Permission>, p: Permission)
    ensures AnyGrantMatches(grants, p) <==> exists k :: 0 <= k < |grants| && GrantMatches(grants[k], p)
  {
    if |grants| > 0 {
      AnyGrantMatchesExists(grants[1..], p);
      if exists k :: 0 <= k < |grants| && GrantMatches(grants[k], p) {
        var k :| 0 <= k < |grants| && GrantMatches(grants[k], p);
        if k > 0 {
          assert grants[1..][k - 1] == grants[k];
        }
      }
      if AnyGrantMatches(grants[1..], p) {
        var k :| 0 <= k < |grants[1..]| && GrantMatches(grants[1..][k], p);
        assert grants[k + 1] == grants[1..][k];
      }
    }
  }

  /** The order of the grants does not matter: any rearrangement of a grant
      list answers every request the same way. */
  lemma GrantOrderIrrelevant(grants: seq<Permission>, other: seq<Permission>, p: Permission)
    requires multiset(grants) == multiset(other)
    ensures AnyGrantMatches(grants, p) == AnyGrantMatches(other, p)
  {
    AnyGrantMatchesExists(grants, p);
    AnyGrantMatchesExists(other, p);
    if AnyGrantMatches(grants, p) {
      var k :| 0 <= k < |grants| && GrantMatches(grants[k], p);
      assert grants[k] in multiset(other);
    }
    if AnyGrantMatches(other, p) {
      var k :| 0 <= k < |other| && GrantMatches(other[k], p);
      assert other[k] in multiset(grants);
    }
  }

  /** No principal holds any permission. */
  lemma HasPermissionNoPrincipal(p: Permission)
    ensures HasPermission(None, p) == Ok(false)
  {
  }

  /** What each role of the table is granted, by (action, subject). */
  predicate Granted(r: Role, p: Permission)
  {
    AnyGrantMatches(Grants(r), p)
  }

  /** `super_admin` is granted every pair. */
  lemma SuperAdminGrantedAll(p: Permission)
    ensures HasPermission(Some(WithRole(SuperAdmin)), p) == Ok(true)
  {
  }

  /** `admin` is granted a pair exactly when its action is one of the four
      CRUD actions, whatever the subject. */
  lemma AdminGranted(p: Permission)
    ensures HasPermission(Some(WithRole(Admin)), p) == Ok(p.action in {"create", "read", "update", "delete"})
  {
    AnyGrantMatchesExists(Grants(Admin), p);
    assert ParseRole(GetUserRole(WithRole(Admin))) == Some(Admin);
    if p.action in {"create", "read", "update", "delete"} {
      var k := if p.action == "create" then 0 else if p.action == "read" then 1
               else if p.action == "update" then 2 else 3;
      assert GrantMatches(Grants(Admin)[k], p);
    }
  }

  /** `manager` is granted exactly its six listed pairs, for every request
      (a `*` in a request only matches a grant holding the same `*`). */
  lemma ManagerGranted(p: Permission)
    ensures HasPermission(Some(WithRole(Manager)), p) == Ok(p in Grants(Manager))
  {
    assert ParseRole(GetUserRole(WithRole(Manager))) == Some(Manager);
    AnyGrantMatchesExists(Grants(Manager), p);
    if p in Grants(Manager) {
      var k :| 0 <= k < |Grants(Manager)| && Grants(Manager)[k] == p;
      assert GrantMatches(Grants(Manager)[k], p);
    }
  }

  /** `user` is granted exactly its three listed pairs, for every request. */
  lemma UserGranted(p: Permission)
    ensures HasPermission(Some(WithRole(User)), p) == Ok(p in Grants(User))
  {
    assert ParseRole(GetUserRole(WithRole(User))) == Some(User);
    AnyGrantMatchesExists(Grants(User), p);
    if p in Grants(User) {
      var k :| 0 <= k < |Grants(User)| && Grants(User)[k] == p;
      assert GrantMatches(Grants(User)[k], p);
    }
  }

  /** Permissions do not follow the role ranking: `user` may create a
      response, `manager`, ranked above it, may not. */
  lemma PermissionsNotMonotone()
    ensures Rank(User) < Rank(Manager)
    ensures HasPermission(Some(WithRole(User)), Permission("create", "response")) == Ok(true)
    ensures HasPermission(Some(WithRole(Manager)), Permission("create", "response")) == Ok(false)
  {
    UserGranted(Permission("create", "response"));
    ManagerGranted(Permission("create", "response"));
  }

  /** An absent or empty metadata role is read as `user` by the permission
      check too. */
  lemma MissingRolePermissions(pr: Principal, p: Permission)
    requires pr.metadataRole.None? || pr.metadataRole == Some("")
    ensures HasPermission(Some(pr), p) == Ok(Granted(User, p))
  {
  }

  /** A non-empty role name outside the table makes the permission check
      throw rather than refuse. */
  lemma UnknownRolePermissionThrows(pr: Principal, p: Permission)
    requires pr.metadataRole.Some? && pr.metadataRole.value != ""
    requires forall r: Role :: RoleName(r) != pr.metadataRole.value
    ensures HasPermission(Some(pr), p) == Err(UnknownRoleLookup(pr.metadataRole.value))
  {
  }

  /** Concrete witness of the throw: metadata role `guest`. */
  lemma GuestPermissionThrows()
    ensures HasPermission(Some(Principal(Some("guest"))), Permission("read", "survey")).Err?
  {
  }

  /** The fail-closed check never grants a role name outside the table, and
      agrees with the source wherever the source answers. */
  lemma FailClosedUnknownRole(pr: Principal, p: Permission)
    requires ParseRole(GetUserRole(pr)).None?
    ensures !HasPermissionFailClosed(Some(pr), p)
    ensures !HasRole(Some(pr), User)
  {
  }
}
