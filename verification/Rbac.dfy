/** Roles that inherit from each other, and who may do what. */
module Rbac {
  import opened Lib

  datatype Role = Role(permissions: set<string>, inherits: seq<string>)

  type Roles = map<string, Role>

  // ---- what inheritance means -------------------------------------------------------------------------------

  /** A path of defined roles, each inheriting the next. */
  predicate IsPath(roles: Roles, path: seq<string>) {
    && path != []
    && (forall i | 0 <= i < |path| :: path[i] in roles)
    && (forall i | 0 < i < |path| :: path[i] in roles[path[i - 1]].inherits)
  }

  /** `role` is `start` or inherited from it, directly or not. */
  ghost predicate Reaches(roles: Roles, start: string, role: string) {
    exists path :: IsPath(roles, path) && path[0] == start && path[|path| - 1] == role
  }

  /** Some defined role reachable from `start` lists the permission. */
  ghost predicate Inherits(roles: Roles, start: string, permission: string) {
    exists role :: Reaches(roles, start, role) && role in roles && permission in roles[role].permissions
  }

  /** Every defined role listed by a member is a member. */
  predicate Closed(roles: Roles, members: set<string>) {
    forall r | r in members && r in roles :: ParentsIn(roles, r, |roles[r].inherits|, members)
  }

  /** The first `n` parents of `r` are members, if they are defined. */
  predicate ParentsIn(roles: Roles, r: string, n: nat, members: set<string>)
    requires r in roles && n <= |roles[r].inherits|
  {
    forall i | 0 <= i < n && roles[r].inherits[i] in roles :: roles[r].inherits[i] in members
  }

  lemma {:induction false} ClosedHoldsPath(roles: Roles, members: set<string>, path: seq<string>, i: nat)
    requires Closed(roles, members) && IsPath(roles, path) && path[0] in members && i < |path|
    ensures path[i] in members
  {
    if i > 0 {
      ClosedHoldsPath(roles, members, path, i - 1);
      assert path[i] in roles[path[i - 1]].inherits;
    }
  }

  lemma ReachesItself(roles: Roles, role: string)
    requires role in roles
    ensures Reaches(roles, role, role)
  {
    assert IsPath(roles, [role]) && [role][0] == role;
  }

  lemma ReachesThroughParent(roles: Roles, child: string, parent: string, role: string)
    requires child in roles && parent in roles[child].inherits && Reaches(roles, parent, role)
    ensures Reaches(roles, child, role)
  {
    var path :| IsPath(roles, path) && path[0] == parent && path[|path| - 1] == role;
    var longer := [child] + path;
    assert forall i | 0 < i < |longer| :: longer[i] == path[i - 1];
    assert IsPath(roles, longer) && longer[0] == child && longer[|longer| - 1] == role;
  }

  /** A defined role gives its own permissions and all that any role it lists gives; an undefined one gives none. */
  lemma InheritsMeans(roles: Roles, start: string, permission: string)
    ensures start !in roles ==> !Inherits(roles, start, permission)
    ensures start in roles ==>
      (Inherits(roles, start, permission) <==>
        || permission in roles[start].permissions
        || exists parent | parent in roles[start].inherits :: Inherits(roles, parent, permission))
  {
    if start in roles && permission in roles[start].permissions {
      ReachesItself(roles, start);
    }
    if parent :| start in roles && parent in roles[start].inherits && Inherits(roles, parent, permission) {
      var role :| Reaches(roles, parent, role) && role in roles && permission in roles[role].permissions;
      ReachesThroughParent(roles, start, parent, role);
    }
    if Inherits(roles, start, permission) && permission !in roles[start].permissions {
      var role :| Reaches(roles, start, role) && role in roles && permission in roles[role].permissions;
      var path :| IsPath(roles, path) && path[0] == start && path[|path| - 1] == role;
      assert IsPath(roles, path[1..]) && path[1..][0] == path[1];
      assert Reaches(roles, path[1], role) && path[1] in roles[start].inherits;
    }
  }

  /** The permissions of a set of roles. */
  function PermissionsOf(roles: Roles, members: set<string>): set<string> {
    set r, p | r in members && r in roles && p in roles[r].permissions :: p
  }

  // ---- the traversal -----------------------------------------------------------------------------------------

  /** The two sets that the nested function of `resolve_role_inheritance` shares. */
  class Expansion {
    const roles: Roles
    var permissions: set<string>
    var expanded: set<string>

    constructor (roles: Roles)
      ensures this.roles == roles && permissions == {} && expanded == {}
    {
      this.roles := roles;
      permissions, expanded := {}, {};
    }

    /** Roles expanded since `before` that are finished: all their parents are in. */
    ghost predicate Finished(before: set<string>)
      reads this
    {
      forall r | r in expanded && r !in before && r in roles :: ParentsIn(roles, r, |roles[r].inherits|, expanded)
    }

    ghost predicate Consistent()
      reads this
    {
      expanded <= roles.Keys && permissions == PermissionsOf(roles, expanded)
    }

    /** `expand`: everything new is reachable from `current` and finished, and `current` is in. */
    method Expand(current: string, path: seq<string>)
      requires Consistent() && forall r | r in path :: r in expanded
      modifies this
      ensures Consistent() && old(expanded) <= expanded
      ensures current in roles ==> current in expanded
      ensures Finished(old(expanded))
      ensures forall r | r in expanded && r !in old(expanded) :: Reaches(roles, current, r)
      decreases roles.Keys - expanded
    {
      if current in path || current !in roles || current in expanded {
        return;
      }
      var role := roles[current];
      ghost var before := expanded;
      expanded := expanded + {current};
      permissions := permissions + role.permissions;
      ReachesItself(roles, current);
      for i := 0 to |role.inherits|
        invariant Consistent() && before + {current} <= expanded
        invariant ParentsIn(roles, current, i, expanded)
        invariant Finished(before + {current})
        invariant forall r | r in expanded && r !in before :: Reaches(roles, current, r)
      {
        label Here:
        Expand(role.inherits[i], path + [current]);
        forall r | r in expanded && r !in old@Here(expanded)
          ensures Reaches(roles, current, r)
        {
          ReachesThroughParent(roles, current, role.inherits[i], r);
        }
      }
    }
  }

  /** `resolve_role_inheritance`: terminates on every graph, cycles included, with exactly the
      permissions of the defined roles reachable from the role. */
  method ResolveRole(roles: Roles, roleId: string) returns (permissions: set<string>)
    ensures forall p :: p in permissions <==> Inherits(roles, roleId, p)
  {
    var e := new Expansion(roles);
    e.Expand(roleId, []);
    permissions := e.permissions;
    forall p | Inherits(roles, roleId, p)
      ensures p in permissions
    {
      var role :| Reaches(roles, roleId, role) && role in roles && p in roles[role].permissions;
      var path :| IsPath(roles, path) && path[0] == roleId && path[|path| - 1] == role;
      assert Closed(roles, e.expanded);
      ClosedHoldsPath(roles, e.expanded, path, |path| - 1);
    }
  }

  // ---- permissions a user holds ---------------------------------------------------------------------------------

  datatype User = User(roles: seq<string>, groups: seq<string>)

  /** A temporary grant; times are instants, `None` when not set. */
  datatype Grant = Grant(entityType: string, entityId: string, permission: string,
                         start: Option<int>, end: Option<int>, revoked: bool)

  predicate Active(g: Grant, entityType: string, entityId: string, now: int) {
    && g.entityType == entityType && g.entityId == entityId && !g.revoked
    && (g.start.None? || g.start.value <= now)
    && (g.end.None? || g.end.value > now)
  }

  /** `get_active`. */
  function ActiveGrants(grants: set<Grant>, entityType: string, entityId: string, now: int): set<string> {
    set g | g in grants && Active(g, entityType, entityId, now) :: g.permission
  }

  /** Everything the checks read: definitions from configuration, assignments and grants from the store. */
  datatype World = World(roles: Roles, groups: map<string, seq<string>>, users: map<string, User>,
                         grants: set<Grant>, now: int)

  predicate IsActiveGrant(w: World, g: Grant, entityType: string, entityId: string, permission: string) {
    g in w.grants && Active(g, entityType, entityId, w.now) && g.permission == permission
  }

  ghost predicate Granted(w: World, entityType: string, entityId: string, permission: string) {
    exists g :: IsActiveGrant(w, g, entityType, entityId, permission)
  }

  ghost predicate ByGroup(w: World, groupId: string, permission: string) {
    || (groupId in w.groups && exists r | r in w.groups[groupId] :: Inherits(w.roles, r, permission))
    || Granted(w, "group", groupId, permission)
  }

  /** The user holds the permission: by a role, by a group's role, or by an active grant to the user or to
      one of the groups. */
  ghost predicate Holds(w: World, userId: string, permission: string) {
    || Granted(w, "user", userId, permission)
    || (userId in w.users
        && (|| (exists r | r in w.users[userId].roles :: Inherits(w.roles, r, permission))
            || (exists g | g in w.users[userId].groups :: ByGroup(w, g, permission))))
  }

  /** The four ways to hold a permission, and no other: a role, a role of a group, a grant to the user, a grant to a
      group; the groups and roles are those of a user that exists. */
  lemma HoldsMeans(w: World, userId: string, permission: string)
    ensures Granted(w, "user", userId, permission) ==> Holds(w, userId, permission)
    ensures userId in w.users ==> forall r | r in w.users[userId].roles && Inherits(w.roles, r, permission) ::
      Holds(w, userId, permission)
    ensures userId in w.users ==> forall g | g in w.users[userId].groups && Granted(w, "group", g, permission) ::
      Holds(w, userId, permission)
    ensures userId in w.users ==> forall g, r | g in w.users[userId].groups && g in w.groups && r in w.groups[g]
      && Inherits(w.roles, r, permission) :: Holds(w, userId, permission)
    ensures Holds(w, userId, permission) && !Granted(w, "user", userId, permission) ==>
      && userId in w.users
      && (|| (exists r | r in w.users[userId].roles :: Inherits(w.roles, r, permission))
          || (exists g | g in w.users[userId].groups :: Granted(w, "group", g, permission))
          || (exists g, r | g in w.users[userId].groups && g in w.groups && r in w.groups[g] ::
                Inherits(w.roles, r, permission)))
  {
    hide Inherits, Granted;
    if userId in w.users {
      forall g | g in w.users[userId].groups && ByGroup(w, g, permission)
        ensures Holds(w, userId, permission)
      {
      }
      if Holds(w, userId, permission) && !Granted(w, "user", userId, permission)
        && !exists r | r in w.users[userId].roles :: Inherits(w.roles, r, permission)
      {
        var g :| g in w.users[userId].groups && ByGroup(w, g, permission);
      }
    }
  }

  /** The union of what the roles give. */
  method ResolveRoles(roles: Roles, ids: seq<string>) returns (permissions: set<string>)
    ensures forall p :: p in permissions <==> exists r | r in ids :: Inherits(roles, r, p)
  {
    hide Inherits;
    permissions := {};
    for i := 0 to |ids|
      invariant forall p :: p in permissions <==> exists r | r in ids[..i] :: Inherits(roles, r, p)
    {
      var more := ResolveRole(roles, ids[i]);
      assert ids[..i + 1] == ids[..i] + [ids[i]];
      permissions := permissions + more;
    }
    assert ids[..|ids|] == ids;
  }

  /** What the groups give: their roles and their active grants. */
  method ResolveGroups(w: World, groups: seq<string>) returns (permissions: set<string>)
    ensures forall p :: p in permissions <==> exists g | g in groups :: ByGroup(w, g, p)
  {
    hide Inherits;
    permissions := {};
    for i := 0 to |groups|
      invariant forall p :: p in permissions <==> exists g | g in groups[..i] :: ByGroup(w, g, p)
    {
      var g := groups[i];
      var byRole := ResolveRoles(w.roles, if g in w.groups then w.groups[g] else []);
      var byGrant := ActiveGrants(w.grants, "group", g, w.now);
      assert groups[..i + 1] == groups[..i] + [g];
      GrantsAreActive(w, "group", g);
      assert forall p :: ByGroup(w, g, p) <==> p in byRole || p in byGrant;
      permissions := permissions + byRole + byGrant;
    }
    assert groups[..|groups|] == groups;
  }

  /** A grant counts exactly if it is to that user or group, is not revoked, has started, and has not ended. */
  lemma GrantedMeans(w: World, entityType: string, entityId: string, permission: string)
    ensures Granted(w, entityType, entityId, permission) <==>
      exists g | g in w.grants ::
        && g.entityType == entityType && g.entityId == entityId && g.permission == permission && !g.revoked
        && (g.start == None || g.start.value <= w.now) && (g.end == None || w.now < g.end.value)
  {
    if Granted(w, entityType, entityId, permission) {
      var g :| IsActiveGrant(w, g, entityType, entityId, permission);
      assert g in w.grants;
    }
    forall g | g in w.grants && g.entityType == entityType && g.entityId == entityId && g.permission == permission
        && !g.revoked && (g.start == None || g.start.value <= w.now) && (g.end == None || w.now < g.end.value)
      ensures Granted(w, entityType, entityId, permission)
    {
      assert IsActiveGrant(w, g, entityType, entityId, permission);
    }
  }

  lemma GrantsAreActive(w: World, entityType: string, entityId: string)
    ensures forall p ::
      p in ActiveGrants(w.grants, entityType, entityId, w.now) <==> Granted(w, entityType, entityId, p)
  {
    var active := ActiveGrants(w.grants, entityType, entityId, w.now);
    forall p | p in active
      ensures Granted(w, entityType, entityId, p)
    {
      var g :| g in w.grants && Active(g, entityType, entityId, w.now) && g.permission == p;
      assert IsActiveGrant(w, g, entityType, entityId, p);
    }
  }

  /** `resolve_user_permissions` without its cache. A missing user has no roles or groups. */
  method ResolveUser(w: World, userId: string) returns (permissions: set<string>)
    ensures forall p :: p in permissions <==> Holds(w, userId, p)
  {
    hide Inherits, ByGroup;
    var user := if userId in w.users then w.users[userId] else User([], []);
    var byRole := ResolveRoles(w.roles, user.roles);
    var byGroup := ResolveGroups(w, user.groups);
    GrantsAreActive(w, "user", userId);
    permissions := byRole + byGroup + ActiveGrants(w.grants, "user", userId, w.now);
  }

  // ---- checks ----------------------------------------------------------------------------------------------

  /** `permission.partition(":")[0]` */
  function Resource(permission: string): (resource: string)
    ensures ':' !in resource
    ensures permission == resource || resource + ":" <= permission
  {
    if permission == "" || permission[0] == ':' then "" else [permission[0]] + Resource(permission[1..])
  }

  /** Holding `p` is enough for `permission`. */
  predicate Suffices(p: string, permission: string) {
    p == "*" || p == permission || p == Resource(permission) + ":*"
  }

  function Enough(permission: string): set<string> {
    {"*", permission, Resource(permission) + ":*"}
  }

  lemma EnoughIsSufficient(held: set<string>, permission: string)
    ensures Enough(permission) * held != {} <==> exists p | p in held :: Suffices(p, permission)
  {
    assert forall p :: p in Enough(permission) <==> Suffices(p, permission);
    if p :| p in held && Suffices(p, permission) {
      assert p in Enough(permission) * held;
    }
  }

  /** `covers` */
  function Covers(held: set<string>, permission: string): (r: bool)
    ensures r <==> exists p | p in held :: Suffices(p, permission)
  {
    EnoughIsSufficient(held, permission);
    Enough(permission) * held != {}
  }

  /** What is enough for an action on a resource: `*`, the permission itself, or the resource's wildcard. */
  lemma CoversMeans(held: set<string>, resource: string, action: string)
    requires ':' !in resource
    ensures Covers(held, resource + ":" + action) <==>
      "*" in held || resource + ":" + action in held || resource + ":*" in held
    ensures Covers(held, resource) <==> "*" in held || resource in held || resource + ":*" in held
  {
    ResourceOf(resource, action);
    ResourceAlone(resource);
    assert Suffices("*", resource) && Suffices("*", resource + ":" + action);
  }

  lemma {:induction false} ResourceAlone(resource: string)
    requires ':' !in resource
    ensures Resource(resource) == resource
  {
    if resource != "" {
      ResourceAlone(resource[1..]);
    }
  }

  /** `resource:*` is enough for an action exactly when the resource is its own. */
  lemma WildcardIsPerResource(resource: string, action: string, other: string)
    requires ':' !in resource && ':' !in other
    ensures Suffices(other + ":*", resource + ":" + action) <==> other == resource
  {
    ResourceOf(resource, action);
    assert ":*" == ":" + "*" && other + ":*" == other + ":" + "*" && resource + ":*" == resource + ":" + "*";
    assert other + ":*" != "*";
    if other + ":*" == resource + ":" + action {
      FirstColon(other, "*", resource, action);
    }
    if other + ":*" == resource + ":*" {
      FirstColon(other, "*", resource, "*");
    }
  }

  lemma {:induction false} ResourceOf(resource: string, action: string)
    requires ':' !in resource
    ensures Resource(resource + ":" + action) == resource
  {
    if resource != "" {
      assert (resource + ":" + action)[1..] == resource[1..] + ":" + action;
      ResourceOf(resource[1..], action);
    }
  }

  lemma FirstColon(a: string, x: string, b: string, y: string)
    requires ':' !in a && ':' !in b && a + ":" + x == b + ":" + y
    ensures a == b
  {
    ResourceOf(a, x);
    ResourceOf(b, y);
  }

  /** `allows`: an API token never exceeds its owner, and the owner never exceeds what they hold. */
  method Allows(w: World, userId: string, scopes: Option<set<string>>, permission: string) returns (allowed: bool)
    ensures allowed <==>
      && (exists p :: Holds(w, userId, p) && Suffices(p, permission))
      && (scopes.Some? ==> exists p | p in scopes.value :: Suffices(p, permission))
  {
    hide Holds, Suffices;
    if scopes.Some? && !Covers(scopes.value, permission) {
      return false;
    }
    var held := ResolveUser(w, userId);
    allowed := Covers(held, permission);
  }
}
