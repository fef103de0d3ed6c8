/**
 * The legacy role controller's membership rules: granting a role in a
 * tenant first makes the user a member of it, and revoking the last role
 * ends the membership. Token revocation is not part of this model.
 */
module RoleController {
  import opened Wrappers
  import opened Values
  import opened IdentitySql
  import opened Collections

  const TenantRequired: string := "User roles not supported: tenant_id required"

  /**
   * add_role_to_user: the membership is added (idempotently) before the
   * grant, so a grant that fails still leaves the user a member.
   */
  method AddRoleToUser(api: SqlIdentity, userId: string, roleId: string, tenantId: Option<string>)
    returns (r: Result<Role, Error>)
    requires api.Valid()
    modifies api
    ensures api.Valid()
    ensures tenantId.None? ==> r == Failure(NotImplemented(TenantRequired)) && api.State() == old(api.State())
    ensures tenantId.Some? && tenantId.value !in old(api.tenants) ==>
      r == Failure(TenantNotFound(tenantId.value)) && api.State() == old(api.State())
    ensures tenantId.Some? && tenantId.value in old(api.tenants) && userId !in old(api.users) ==>
      r == Failure(UserNotFound(userId)) && api.State() == old(api.State())
    ensures tenantId.Some? && tenantId.value in old(api.tenants) && userId in old(api.users) ==>
      Membership(userId, tenantId.value) in api.members
    ensures r.Success? ==>
      && tenantId.Some? && roleId in api.roles && r.value == api.roles[roleId]
      && RoleSet(MetaOf(api.metadata, MetaKey(userId, tenantId.value))).Success?
      && VStr(roleId) in RoleSet(MetaOf(api.metadata, MetaKey(userId, tenantId.value))).value
    ensures tenantId.Some? && tenantId.value in old(api.tenants) && userId in old(api.users) ==>
      var key := MetaKey(userId, tenantId.value);
      var joined := old(api.State()).(members := AddOnce(old(api.members), Membership(userId, tenantId.value)));
      var before := RoleSet(MetaOf(old(api.metadata), key));
      && (roleId !in old(api.roles) ==> r == Failure(RoleNotFound(roleId)))
      && (roleId in old(api.roles) && before.Failure? ==> r == Failure(TypeError))
      && (roleId in old(api.roles) && before.Success? && VStr(roleId) in before.value ==> r == Failure(Conflict("role grant")))
      && (roleId in old(api.roles) && before.Success? && VStr(roleId) !in before.value ==> r == Success(old(api.roles)[roleId]))
      && (r.Failure? ==> api.State() == joined)
      && (r.Success? ==>
            && key in api.metadata
            && RolesWritten(MetaOf(old(api.metadata), key), api.metadata[key], before.value + {VStr(roleId)})
            && api.State() == joined.(metadata := old(api.metadata)[key := api.metadata[key]]))
  {
    if tenantId.None? {
      return Failure(NotImplemented(TenantRequired));
    }
    var t := tenantId.value;
    var joined := api.AddUserToTenant(t, userId);
    if joined.Fail? {
      return Failure(joined.error);
    }
    var granted := api.AddRoleToUserAndTenant(userId, t, roleId);
    if granted.Fail? {
      return Failure(granted.error);
    }
    var key := MetaKey(userId, t);
    RolesWrittenRoleSet(MetaOf(old(api.metadata), key), api.metadata[key],
                        RoleSet(MetaOf(old(api.metadata), key)).value + {VStr(roleId)});
    r := GetRole(api.State(), roleId);
  }

  /**
   * remove_role_from_user: the role is revoked; when the (user, tenant)
   * pair has no roles left (its "roles" value is falsy) the membership is
   * removed too.
   */
  method RemoveRoleFromUser(api: SqlIdentity, userId: string, roleId: string, tenantId: Option<string>)
    returns (r: Outcome<Error>)
    requires api.Valid()
    modifies api
    ensures api.Valid()
    ensures tenantId.None? ==> r == Fail(NotImplemented(TenantRequired)) && api.State() == old(api.State())
    ensures r.Pass? ==> tenantId.Some? && userId in api.users && tenantId.value in api.tenants
    ensures r.Pass? ==>
      var key := MetaKey(userId, tenantId.value);
      && key in api.metadata
      && Revoked(MetaOf(old(api.metadata), key), api.metadata[key], VStr(roleId))
      && (Truthy(DictGet(api.metadata[key], "roles", VList([]))) ==> api.members == old(api.members))
      && (!Truthy(DictGet(api.metadata[key], "roles", VList([]))) ==>
            Membership(userId, tenantId.value) !in api.members)
    ensures tenantId.Some? ==> Removal(old(api.State()), api.State(), userId, tenantId.value, roleId, r)
  {
    if tenantId.None? {
      return Fail(NotImplemented(TenantRequired));
    }
    var t := tenantId.value;
    ghost var st0 := api.State();
    ghost var key := MetaKey(userId, t);
    var revoked := api.RemoveRoleFromUserAndTenant(userId, t, roleId);
    if revoked.Fail? {
      return revoked;
    }
    ghost var st1 := api.State();
    assert st1 == st0.(metadata := st0.metadata[key := st1.metadata[key]]);
    var roles := GetRolesForUserAndTenant(api.State(), userId, t);
    if roles.Failure? {
      return Fail(roles.error);
    }
    assert roles.value == DictGet(st1.metadata[key], "roles", VList([]));
    if !Truthy(roles.value) {
      var left := api.RemoveUserFromTenant(t, userId);
      if left.Fail? {
        return left;
      }
      assert api.State() == st1.(members := Remove(st0.members, Membership(userId, t)));
    }
    r := Pass;
  }

  /**
   * What remove_role_from_user leaves for a tenant: a role set that cannot
   * be read or lacks the role changes nothing; otherwise the revocation is
   * written, then a missing user or tenant raises, and an emptied role list
   * ends the membership (NotFound when there was none).
   */
  ghost predicate Removal(before: Store, after: Store, userId: string, tenantId: string, roleId: string, r: Outcome<Error>)
  {
    var key := MetaKey(userId, tenantId);
    var m := Membership(userId, tenantId);
    var held := RoleSet(MetaOf(before.metadata, key));
    && (held.Failure? ==> r == Fail(TypeError) && after == before)
    && (held.Success? && VStr(roleId) !in held.value ==> r == Fail(RoleNotFound(roleId)) && after == before)
    && (held.Success? && VStr(roleId) in held.value ==>
          && key in after.metadata
          && RolesWritten(MetaOf(before.metadata, key), after.metadata[key], held.value - {VStr(roleId)})
          && var revoked := before.(metadata := before.metadata[key := after.metadata[key]]);
          var emptied := !Truthy(DictGet(after.metadata[key], "roles", VList([])));
          && (userId !in before.users ==> r == Fail(UserNotFound(userId)) && after == revoked)
          && (userId in before.users && tenantId !in before.tenants ==>
                r == Fail(TenantNotFound(tenantId)) && after == revoked)
          && (userId in before.users && tenantId in before.tenants ==>
                && (r.Pass? <==> !emptied || m in before.members)
                && (r.Fail? ==> r == Fail(NotFound("User not found in tenant")) && after == revoked)
                && (r.Pass? ==> after == revoked.(members := if emptied then Remove(before.members, m) else before.members))))
  }
}
