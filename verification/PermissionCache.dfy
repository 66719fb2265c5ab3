/** Cached permissions with one request at a time: role changes delete the user's key, permission changes of a role
  * delete the tenant's pattern. The keys are the strings Redis holds. */
module PermissionCache {
  import opened Prelude
  import opened CacheKeys
  import opened CacheService
  import opened CacheAside

  /** What the two queries answer in one state of the database. */
  function Granted(db: Db, tenantId: string, userId: string): set<Grant> {
    GrantsOf(db, tenantId, RolesOf(db, UserPermissions(tenantId, userId)))
  }

  /** The entry of this key, expired or not, is what the database answers now. */
  ghost predicate EntryExact(db: Db, key: string, value: set<Grant>) {
    exists tenantId, userId :: ValidKey(UserPermissions(tenantId, userId))
        && Render(UserPermissions(tenantId, userId)) == key
                               && value == Granted(db, tenantId, userId)
  }

  ghost predicate Exact(db: Db, store: map<string, Stored<set<Grant>>>) {
    forall key | key in store :: EntryExact(db, key, store[key].value)
  }

  /** A key determines its owner, so its entry is exact only for that owner. */
  lemma ExactForOwner(db: Db, value: set<Grant>, tenantId: string, userId: string)
    requires ValidKey(UserPermissions(tenantId, userId))
            && EntryExact(db, Render(UserPermissions(tenantId, userId)), value)
    ensures value == Granted(db, tenantId, userId)
  {
    var t, u :| ValidKey(UserPermissions(t, u))
        && Render(UserPermissions(t, u)) == Render(UserPermissions(tenantId, userId))
                && value == Granted(db, t, u);
    RenderInjective(UserPermissions(t, u), UserPermissions(tenantId, userId));
  }

  /** The write changed no permission, and no role of anybody else. */
  ghost predicate OnlyRolesOf(before: Db, after: Db, tenantId: string, userId: string) {
    && (forall r: UserRole | r.tenantId != tenantId || r.userId != userId ::
          r in before.userRoles <==> r in after.userRoles)
    && before.grants == after.grants
  }

  /** Changing one user's roles changes nobody else's permissions. */
  lemma RolesAreLocal(before: Db, after: Db, tenantId: string, userId: string, t: string, u: string)
    requires OnlyRolesOf(before, after, tenantId, userId) && (t != tenantId || u != userId)
    ensures Granted(after, t, u) == Granted(before, t, u)
  {
    var k := UserPermissions(t, u);
    assert RolesOf(after, k) == RolesOf(before, k);
  }

  /** Somebody in the tenant holds the role. */
  ghost predicate Held(db: Db, tenantId: string, roleId: string) {
    exists u :: UserRole(tenantId, u, roleId) in db.userRoles
  }

  /** The rows that the guard of the admin role counts. */
  function Holders(db: Db, tenantId: string, roleId: string): set<UserRole> {
    set r | r in db.userRoles && r.tenantId == tenantId && r.roleId == roleId
  }

  lemma SubsetsAreSmaller<T>(s: set<T>, t: set<T>)
    requires s <= t
    ensures |s| <= |t|
  {
    assert t == s + (t - s);
  }

  /** Counting at most one holder is to find no two that differ. */
  lemma CountsAtMostOneIff<T>(s: set<T>)
    ensures |s| <= 1 <==> forall x, y | x in s && y in s :: x == y
  {
    if x, y :| x in s && y in s && x != y {
      assert |{x, y}| <= |s| by {
        SubsetsAreSmaller({x, y}, s);
      }
    } else if s != {} {
      var x :| x in s;
      assert s == {x};
    }
  }

  lemma HoldersAtMostOneIff(db: Db, tenantId: string, roleId: string)
    ensures |Holders(db, tenantId, roleId)| <= 1
            <==> forall u, v | UserRole(tenantId, u, roleId) in db.userRoles
                               && UserRole(tenantId, v, roleId) in db.userRoles :: u == v
  {
    var holders := Holders(db, tenantId, roleId);
    CountsAtMostOneIff(holders);
    forall u | UserRole(tenantId, u, roleId) in db.userRoles ensures UserRole(tenantId, u, roleId) in holders {
    }
    if forall u, v | UserRole(tenantId, u, roleId) in db.userRoles
                     && UserRole(tenantId, v, roleId) in db.userRoles :: u == v {
      forall x, y | x in holders && y in holders ensures x == y {
        assert x == UserRole(tenantId, x.userId, roleId) && y == UserRole(tenantId, y.userId, roleId);
      }
    }
  }

  /** The write changed no row of another tenant. */
  ghost predicate Confined(before: Db, after: Db, tenantId: string) {
    && (forall r: UserRole | r.tenantId != tenantId :: r in before.userRoles <==> r in after.userRoles)
    && (forall g: Grant | g.tenantId != tenantId :: g in before.grants <==> g in after.grants)
  }

  /** A write confined to a tenant changes nobody's permissions in other tenants. */
  lemma ConfinedIsLocal(before: Db, after: Db, tenantId: string, t: string, u: string)
    requires Confined(before, after, tenantId) && t != tenantId
    ensures Granted(after, t, u) == Granted(before, t, u)
  {
    var k := UserPermissions(t, u);
    assert RolesOf(after, k) == RolesOf(before, k);
  }

  /** After any change of one user's roles, deleting the user's key keeps every remaining entry exact. */
  lemma RolesKeepExact(before: Db, after: Db, store: map<string, Stored<set<Grant>>>, tenantId: string,
                       userId: string)
    requires Exact(before, store) && ValidKey(UserPermissions(tenantId, userId))
    requires OnlyRolesOf(before, after, tenantId, userId)
    ensures Exact(after, store - {Render(UserPermissions(tenantId, userId))})
  {
    forall key | key in store && key != Render(UserPermissions(tenantId, userId))
      ensures EntryExact(after, key, store[key].value)
    {
      assert EntryExact(before, key, store[key].value);
      var t, u :| ValidKey(UserPermissions(t, u)) && Render(UserPermissions(t, u)) == key
                  && store[key].value == Granted(before, t, u);
      RolesAreLocal(before, after, tenantId, userId, t, u);
    }
  }

  /** If the key is still there, the entries are exact if and only if the user's answer is what it holds. */
  lemma RolesLeaveExactIff(before: Db, after: Db, store: map<string, Stored<set<Grant>>>, tenantId: string,
                           userId: string)
    requires Exact(before, store) && ValidKey(UserPermissions(tenantId, userId))
    requires OnlyRolesOf(before, after, tenantId, userId) && Render(UserPermissions(tenantId, userId)) in store
    ensures Exact(after, store)
            <==> store[Render(UserPermissions(tenantId, userId))].value == Granted(after, tenantId, userId)
  {
    var key := Render(UserPermissions(tenantId, userId));
    RolesKeepExact(before, after, store, tenantId, userId);
    if Exact(after, store) {
      ExactForOwner(after, store[key].value, tenantId, userId);
    } else {
      assert forall k | k in store && k != key :: k in store - {key} && (store - {key})[k] == store[k];
    }
  }

  /** Any write confined to a tenant, with the tenant's pattern deleted, keeps every remaining entry exact. */
  lemma TenantKeepsExact(before: Db, after: Db, store: map<string, Stored<set<Grant>>>, tenantId: string)
    requires Exact(before, store) && Confined(before, after, tenantId)
    requires ValidId(tenantId) && '[' !in UserPermissionsPattern(tenantId)
    ensures Exact(after, store - Matching(store, UserPermissionsPattern(tenantId)))
  {
    forall key | key in store && key !in Matching(store, UserPermissionsPattern(tenantId))
      ensures EntryExact(after, key, store[key].value)
    {
      assert EntryExact(before, key, store[key].value);
      var t, u :| ValidKey(UserPermissions(t, u)) && Render(UserPermissions(t, u)) == key
                  && store[key].value == Granted(before, t, u);
      UserPermissionsPatternIsExact(tenantId, UserPermissions(t, u));
      ConfinedIsLocal(before, after, tenantId, t, u);
    }
  }

  /** The answer for this user, whose entry is still stored, is the same before and after. */
  predicate Unchanged(before: Db, after: Db, tenantId: string, userId: string) {
    Granted(before, tenantId, userId) == Granted(after, tenantId, userId)
  }

  /** Whatever part of the entries is left after any write: it is exact if and only if the answers of the users whose
    * entries are left did not change. */
  lemma LeftIsExactIff(before: Db, after: Db, store: map<string, Stored<set<Grant>>>,
                       left: map<string, Stored<set<Grant>>>)
    requires Exact(before, store) && forall key | key in left :: key in store && left[key] == store[key]
    ensures Exact(after, left)
            <==> forall t, u | ValidKey(UserPermissions(t, u)) && Render(UserPermissions(t, u)) in left ::
                   Unchanged(before, after, t, u)
  {
    if Exact(after, left) {
      forall t, u | ValidKey(UserPermissions(t, u)) && Render(UserPermissions(t, u)) in left
        ensures Unchanged(before, after, t, u)
      {
        var key := Render(UserPermissions(t, u));
        ExactForOwner(before, left[key].value, t, u);
        ExactForOwner(after, left[key].value, t, u);
      }
    } else {
      var key :| key in left && !EntryExact(after, key, left[key].value);
      assert EntryExact(before, key, store[key].value);
      var t, u :| ValidKey(UserPermissions(t, u)) && Render(UserPermissions(t, u)) == key
                  && store[key].value == Granted(before, t, u);
      assert !Unchanged(before, after, t, u);
    }
  }

  /** After a write confined to a tenant only that tenant's users matter. */
  lemma TenantLeavesExactIff(before: Db, after: Db, store: map<string, Stored<set<Grant>>>,
                             left: map<string, Stored<set<Grant>>>, tenantId: string)
    requires Exact(before, store) && forall key | key in left :: key in store && left[key] == store[key]
    requires Confined(before, after, tenantId)
    ensures Exact(after, left)
            <==> forall u | ValidKey(UserPermissions(tenantId, u)) && Render(UserPermissions(tenantId, u)) in left ::
                   Unchanged(before, after, tenantId, u)
  {
    LeftIsExactIff(before, after, store, left);
    forall t, u | t != tenantId ensures Unchanged(before, after, t, u) {
      ConfinedIsLocal(before, after, tenantId, t, u);
    }
  }

  /** Deleting a user, which deletes no key: exact if and only if no stored entry of the user, in any tenant, grants
    * anything. */
  lemma DeletedUserLeavesExactIff(db: Db, after: Db, store: map<string, Stored<set<Grant>>>, userId: string)
    requires Exact(db, store) && db.grants == after.grants
    requires forall r :: r in after.userRoles <==> r in db.userRoles && r.userId != userId
    ensures Exact(after, store)
            <==> forall t | ValidKey(UserPermissions(t, userId)) && Render(UserPermissions(t, userId)) in store ::
                   Granted(db, t, userId) == {}
  {
    LeftIsExactIff(db, after, store, store);
    forall t, u ensures Granted(after, t, u) == if u == userId then {} else Granted(db, t, u) {
      var k := UserPermissions(t, u);
      if u == userId {
        assert RolesOf(after, k) == {};
      } else {
        assert RolesOf(after, k) == RolesOf(db, k);
      }
    }
    if forall t | ValidKey(UserPermissions(t, userId)) && Render(UserPermissions(t, userId)) in store ::
         Granted(db, t, userId) == {} {
      forall t, u | ValidKey(UserPermissions(t, u)) && Render(UserPermissions(t, u)) in store
          ensures Unchanged(db, after, t, u) {
      }
    } else {
      var t :| ValidKey(UserPermissions(t, userId)) && Render(UserPermissions(t, userId)) in store
               && Granted(db, t, userId) != {};
      assert !Unchanged(db, after, t, userId);
    }
  }

  class Permissions {
    const cache: Cache<set<Grant>>
    var db: Db

    constructor (db: Db)
      ensures this.db == db && fresh(cache) && Exact(db, cache.store)
    {
      this.db := db;
      cache := new Cache();
    }

    /** An unexpired entry is the answer, and the store stays; otherwise the answer is the permissions of the roles that
      * the user holds, and is stored for five minutes. With exact entries the answer is the database's in both cases,
      * whichever cache calls fail. */
    method GetUserPermissions(tenantId: string, userId: string, getOk: bool, setOk: bool)
      returns (r: Result<set<Grant>, string>)
      modifies cache`store
      ensures r.Ok? <==> ValidKey(UserPermissions(tenantId, userId))
      ensures r.Err? ==> cache.store == old(cache.store)
      ensures var key := Render(UserPermissions(tenantId, userId));
              var hit := getOk && key in old(cache.store)
                         && (old(cache.store)[key].expiresAt.None?
                             || cache.now < old(cache.store)[key].expiresAt.value);
              r.Ok? ==>
                && (hit ==> r.value == old(cache.store)[key].value)
                && (!hit || old(Exact(db, cache.store)) ==> forall g ::
                      g in r.value <==> g in db.grants && g.tenantId == tenantId
                                        && UserRole(tenantId, userId, g.roleId) in db.userRoles)
                && cache.store == if hit || !setOk then old(cache.store)
                                  else old(cache.store)[key := Stored(r.value, Some(cache.now + 300))]
      ensures old(Exact(db, cache.store)) ==> Exact(db, cache.store)
    {
      var built := Build(UserPermissions(tenantId, userId));
      if built.Err? {
        return Err(built.error);
      }
      var cached := cache.Get(built.value, getOk);
      if cached.Some? {
        if Exact(db, cache.store) {
          ExactForOwner(db, cached.value, tenantId, userId);
        }
        return Ok(cached.value);
      }
      var roles := RolesOf(db, UserPermissions(tenantId, userId));
      var result := if roles == {} then {} else GrantsOf(db, tenantId, roles);
      assert result == Granted(db, tenantId, userId);
      assert EntryExact(db, built.value, result);
      var _ := cache.Set(built.value, result, Ttl(UserPermissions(tenantId, userId)), setOk);
      return Ok(result);
    }

    /** After a change of the user's roles, `del` of the user's key: exact again unless the delete fails and the answer
      * changed. */
    method DeleteKey(tenantId: string, userId: string, delOk: bool, ghost before: Db)
      requires ValidKey(UserPermissions(tenantId, userId)) && Exact(before, cache.store)
      requires OnlyRolesOf(before, db, tenantId, userId)
      modifies cache`store
      ensures var key := Render(UserPermissions(tenantId, userId));
              && cache.store == (if delOk then old(cache.store) - {key} else old(cache.store))
              && (Exact(db, cache.store) <==>
                    delOk || key !in old(cache.store) || old(cache.store[key].value) == Granted(db, tenantId, userId))
    {
      ghost var store, key := cache.store, Render(UserPermissions(tenantId, userId));
      var _ := cache.Del(Render(UserPermissions(tenantId, userId)), delOk);
      RolesKeepExact(before, db, store, tenantId, userId);
      if key in store {
        RolesLeaveExactIff(before, db, store, tenantId, userId);
      } else {
        assert store - {key} == store;
      }
    }

    /** Assigning roles adds those the user lacks and keeps the others; a membership that is not active gets none, and
      * an unknown role refuses them all. The key is deleted even when nothing was added. */
    method AssignRoles(tenantId: string, userId: string, found: bool, active: bool, known: set<string>,
                       roles: set<string>, delOk: bool)
      returns (r: Result<set<string>, string>)
      requires ValidKey(UserPermissions(tenantId, userId)) && Exact(db, cache.store)
      modifies this`db, cache`store
      ensures r.Err? ==> r.error == if !found then "USER_NOT_FOUND" else "INVALID_ROLE_IDS"
      ensures r.Ok? <==> found && forall id | id in roles :: id in known
      ensures forall x :: x in db.userRoles <==>
                x in old(db.userRoles)
                || (r.Ok? && active && x.tenantId == tenantId && x.userId == userId && x.roleId in roles)
      ensures db.grants == old(db.grants) && db.reports == old(db.reports)
      ensures r.Ok? ==> forall id :: id in r.value <==> active && UserRole(tenantId, userId, id) in db.userRoles
      ensures var key := Render(UserPermissions(tenantId, userId));
              && cache.store == (if r.Ok? && delOk then old(cache.store) - {key} else old(cache.store))
              && (Exact(db, cache.store) <==>
                    r.Err? || delOk || key !in old(cache.store)
                    || old(cache.store[key].value) == Granted(db, tenantId, userId))
    {
      if !found {
        return Err("USER_NOT_FOUND");
      }
      if !(roles <= known) {
        return Err("INVALID_ROLE_IDS");
      }
      ghost var before := db;
      var held: set<string> := {};
      if active {
        var newRoles := set id | id in roles && UserRole(tenantId, userId, id) !in db.userRoles;
        db := db.(userRoles := db.userRoles + set id | id in newRoles :: UserRole(tenantId, userId, id));
        held := RolesOf(db, UserPermissions(tenantId, userId));
      }
      DeleteKey(tenantId, userId, delOk, before);
      return Ok(held);
    }

    /** Removing a role. The guard counts the holders of the admin role before it looks whether this user is one. */
    method RemoveRole(tenantId: string, userId: string, roleId: string, found: bool, roleFound: bool, isAdmin: bool,
                      delOk: bool)
      returns (r: Result<set<string>, string>)
      requires ValidKey(UserPermissions(tenantId, userId)) && Exact(db, cache.store)
      modifies this`db, cache`store
      ensures r.Ok? <==> && found && roleFound && UserRole(tenantId, userId, roleId) in old(db.userRoles)
                         && (isAdmin ==> exists u :: u != userId && UserRole(tenantId, u, roleId) in old(db.userRoles))
      ensures r.Err? ==>
                (r.error == if !found then "USER_NOT_FOUND"
                            else if !roleFound then "ROLE_NOT_FOUND"
                            else if isAdmin
                                    && forall u, v | UserRole(tenantId, u, roleId) in db.userRoles
                                                     && UserRole(tenantId, v, roleId) in db.userRoles :: u == v
                            then "LAST_ADMIN_ROLE"
                            else "ROLE_NOT_ASSIGNED")
      ensures forall x :: x in db.userRoles <==>
                x in old(db.userRoles) && !(r.Ok? && x == UserRole(tenantId, userId, roleId))
      ensures db.grants == old(db.grants) && db.reports == old(db.reports)
      ensures isAdmin && old(Held(db, tenantId, roleId)) ==> Held(db, tenantId, roleId)
      ensures r.Ok? ==> forall id :: id in r.value <==> UserRole(tenantId, userId, id) in db.userRoles
      ensures var key := Render(UserPermissions(tenantId, userId));
              && cache.store == (if r.Ok? && delOk then old(cache.store) - {key} else old(cache.store))
              && (Exact(db, cache.store) <==>
                    r.Err? || delOk || key !in old(cache.store)
                    || old(cache.store[key].value) == Granted(db, tenantId, userId))
    {
      if !found {
        return Err("USER_NOT_FOUND");
      }
      if !roleFound {
        return Err("ROLE_NOT_FOUND");
      }
      ghost var before := db;
      var row := UserRole(tenantId, userId, roleId);
      HoldersAtMostOneIff(db, tenantId, roleId);
      if isAdmin && |Holders(db, tenantId, roleId)| <= 1 {
        return Err("LAST_ADMIN_ROLE");
      }
      if row !in db.userRoles {
        return Err("ROLE_NOT_ASSIGNED");
      }
      db := db.(userRoles := db.userRoles - {row});
      DeleteKey(tenantId, userId, delOk, before);
      return Ok(RolesOf(db, UserPermissions(tenantId, userId)));
    }

    /** A write confined to a tenant, then `delByPattern` of the tenant's keys: exact again if the scan was completed,
      * or if no user whose entry it left has another answer now; and in any case no entry of another tenant is touched
      * or made wrong. */
    method ChangeTenant(after: Db, tenantId: string, pages: seq<seq<string>>, failsAt: Option<nat>)
      requires ValidId(tenantId) && Exact(db, cache.store) && Confined(db, after, tenantId)
      requires '[' !in UserPermissionsPattern(tenantId) && Scans(cache.store, UserPermissionsPattern(tenantId), pages)
      modifies this`db, cache`store
      ensures db == after
      ensures cache.store == old(cache.store) - (if failsAt.None? || failsAt.value >= |pages|
                                                 then Matching(old(cache.store), UserPermissionsPattern(tenantId))
                                                 else Scanned(pages, failsAt.value))
      ensures failsAt.None? ==> Exact(db, cache.store)
      ensures Exact(db, cache.store)
              <==> forall u | ValidKey(UserPermissions(tenantId, u))
                  && Render(UserPermissions(tenantId, u)) in cache.store ::
                     Unchanged(old(db), db, tenantId, u)
      ensures forall t, u | ValidKey(UserPermissions(t, u)) && t != tenantId ::
                var k := Render(UserPermissions(t, u));
                (k in cache.store <==> k in old(cache.store))
                && (k in cache.store ==>
                    cache.store[k] == old(cache.store[k]) && cache.store[k].value == Granted(db, t, u))
    {
      ghost var store, before := cache.store, db;
      db := after;
      var _ := cache.DelByPattern(UserPermissionsPattern(tenantId), pages, failsAt);
      TenantKeepsExact(before, db, store, tenantId);
      TenantLeavesExactIff(before, db, store, cache.store, tenantId);
      forall t, u | ValidKey(UserPermissions(t, u)) && t != tenantId
        ensures var k := Render(UserPermissions(t, u));
                (k in cache.store <==> k in store)
                && (k in cache.store ==> cache.store[k] == store[k] && cache.store[k].value == Granted(db, t, u))
      {
        var k := Render(UserPermissions(t, u));
        UserPermissionsPatternIsExact(tenantId, UserPermissions(t, u));
        if k in store {
          ExactForOwner(before, store[k].value, t, u);
          ConfinedIsLocal(before, db, tenantId, t, u);
        }
      }
    }

    /** Replacing a role's permissions: it has exactly the listed ones afterwards. */
    method SetRolePermissions(tenantId: string, roleId: string, found: bool, isSystem: bool, known: set<string>,
                              permissions: set<string>, pages: seq<seq<string>>, failsAt: Option<nat>)
      returns (r: Result<set<string>, string>)
      requires ValidId(tenantId) && Exact(db, cache.store)
      requires '[' !in UserPermissionsPattern(tenantId) && Scans(cache.store, UserPermissionsPattern(tenantId), pages)
      modifies this`db, cache`store
      ensures r.Ok? <==> found && !isSystem && forall p | p in permissions :: p in known
      ensures r.Err? ==> r.error == if !found then "ROLE_NOT_FOUND"
                                    else if isSystem then "SYSTEM_ROLE_IMMUTABLE" else "INVALID_PERMISSION_IDS"
      ensures r.Ok? ==> r.value == permissions
      ensures r.Err? ==> db == old(db) && cache.store == old(cache.store)
      ensures r.Ok? ==> forall g :: g in db.grants <==>
                if g.tenantId == tenantId && g.roleId == roleId then g.permission in permissions
                else g in old(db.grants)
      ensures db.userRoles == old(db.userRoles) && db.reports == old(db.reports)
      ensures r.Ok? ==>
                cache.store == old(cache.store) - (if failsAt.None? || failsAt.value >= |pages|
                                                   then Matching(old(cache.store), UserPermissionsPattern(tenantId))
                                                   else Scanned(pages, failsAt.value))
      ensures failsAt.None? ==> Exact(db, cache.store)
      ensures Exact(db, cache.store)
              <==> forall u | ValidKey(UserPermissions(tenantId, u))
                  && Render(UserPermissions(tenantId, u)) in cache.store ::
                     Unchanged(old(db), db, tenantId, u)
      ensures forall t, u | ValidKey(UserPermissions(t, u)) && t != tenantId ::
                var k := Render(UserPermissions(t, u));
                (k in cache.store <==> k in old(cache.store))
                && (k in cache.store ==>
                    cache.store[k] == old(cache.store[k]) && cache.store[k].value == Granted(db, t, u))
    {
      ghost var store := cache.store;
      forall t, u | ValidKey(UserPermissions(t, u)) && Render(UserPermissions(t, u)) in store
        ensures store[Render(UserPermissions(t, u))].value == Granted(db, t, u)
      {
        ExactForOwner(db, store[Render(UserPermissions(t, u))].value, t, u);
      }
      if !found {
        return Err("ROLE_NOT_FOUND");
      }
      if isSystem {
        return Err("SYSTEM_ROLE_IMMUTABLE");
      }
      if !(permissions <= known) {
        return Err("INVALID_PERMISSION_IDS");
      }
      var kept := set g | g in db.grants
                          && (g.tenantId == tenantId && g.roleId == roleId ==> g.permission in permissions);
      ChangeTenant(db.(grants := kept + set p | p in permissions :: Grant(tenantId, roleId, p)), tenantId, pages,
                   failsAt);
      var listed := set g | g in db.grants && g.tenantId == tenantId && g.roleId == roleId :: g.permission;
      assert forall p | p in permissions :: Grant(tenantId, roleId, p) in db.grants;
      assert listed == permissions;
      return Ok(listed);
    }

    /** Deleting a role: its users and its permissions go together, then the tenant's keys. */
    method DeleteRole(tenantId: string, roleId: string, found: bool, isSystem: bool, pages: seq<seq<string>>,
                      failsAt: Option<nat>)
      returns (r: Result<(), string>)
      requires ValidId(tenantId) && Exact(db, cache.store)
      requires '[' !in UserPermissionsPattern(tenantId) && Scans(cache.store, UserPermissionsPattern(tenantId), pages)
      modifies this`db, cache`store
      ensures r.Ok? <==> found && !isSystem
      ensures r.Err? ==> r.error == if isSystem then "SYSTEM_ROLE_IMMUTABLE" else "ROLE_NOT_FOUND"
      ensures r.Err? ==> db == old(db) && cache.store == old(cache.store)
      ensures r.Ok? ==>
                && (forall x :: x in db.userRoles <==>
                      x in old(db.userRoles) && !(x.tenantId == tenantId && x.roleId == roleId))
                && (forall g :: g in db.grants <==>
                      g in old(db.grants) && !(g.tenantId == tenantId && g.roleId == roleId))
      ensures db.reports == old(db.reports)
      ensures failsAt.None? ==> Exact(db, cache.store)
      ensures Exact(db, cache.store)
              <==> forall u | ValidKey(UserPermissions(tenantId, u))
                  && Render(UserPermissions(tenantId, u)) in cache.store ::
                     Unchanged(old(db), db, tenantId, u)
    {
      if isSystem {
        return Err("SYSTEM_ROLE_IMMUTABLE");
      }
      if !found {
        return Err("ROLE_NOT_FOUND");
      }
      ChangeTenant(db.(userRoles := (set x | x in db.userRoles && !(x.tenantId == tenantId && x.roleId == roleId)),
                       grants := (set g | g in db.grants && !(g.tenantId == tenantId && g.roleId == roleId))),
                   tenantId, pages, failsAt);
      return Ok(());
    }

    /** Deleting a user takes all its roles, in every tenant, and deletes no key. Nor does it ask whether the user is
      * the last to hold a role. */
    method DeleteUser(userId: string)
      requires Exact(db, cache.store)
      modifies this`db
      ensures forall x :: x in db.userRoles <==> x in old(db.userRoles) && x.userId != userId
      ensures db.grants == old(db.grants) && db.reports == old(db.reports)
      ensures forall t, roleId :: Held(db, t, roleId)
                <==> exists u :: u != userId && UserRole(t, u, roleId) in old(db.userRoles)
      ensures Exact(db, cache.store)
              <==> forall t | ValidKey(UserPermissions(t, userId))
                  && Render(UserPermissions(t, userId)) in cache.store ::
                     Granted(old(db), t, userId) == {}
    {
      ghost var before := db;
      db := db.(userRoles := (set x | x in db.userRoles && x.userId != userId));
      DeletedUserLeavesExactIff(before, db, cache.store, userId);
    }
  }

  /** Roles assigned and permissions asked for right after: if the delete worked, the answer is exactly the permissions
    * of the roles held before and of those assigned, whichever of the other cache calls fail. */
  method AssignThenAsk(p: Permissions, tenantId: string, userId: string, active: bool, known: set<string>,
                       roles: set<string>, getOk: bool, setOk: bool)
    returns (granted: set<Grant>)
    requires ValidKey(UserPermissions(tenantId, userId)) && Exact(p.db, p.cache.store)
    requires forall id | id in roles :: id in known
    modifies p`db, p.cache`store
    ensures forall g :: g in granted <==>
              && g in old(p.db.grants) && g.tenantId == tenantId
              && (UserRole(tenantId, userId, g.roleId) in old(p.db.userRoles) || (active && g.roleId in roles))
  {
    var _ := p.AssignRoles(tenantId, userId, true, active, known, roles, true);
    var r := p.GetUserPermissions(tenantId, userId, getOk, setOk);
    return r.value;
  }
}
