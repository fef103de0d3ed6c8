/**
 * The federated identity driver: users may live in the LDAP directory (ids
 * that are DNs) or in the SQL tables (all other ids); tenants, roles and
 * memberships live only in SQL. Directory users belong to the configured
 * default tenant and hold the configured default roles there.
 */
module LdapSql {
  import opened Wrappers
  import opened Values
  import opened IdentitySql
  import Ldap

  /** What the driver consults: the SQL tables, the directory, the user wrapper's settings and the `[ldap]` options. */
  datatype Backend = Backend(
    st: Store,
    hooks: Hooks,
    directory: Ldap.Directory,
    userLdap: Ldap.Settings,
    conf: Ldap.LdapConf)

  /** _filter_user: the password is popped from a found record; a missing one stays missing. */
  function PopPassword(ref: Option<Record>): (r: Option<Record>)
    ensures r.None? <==> ref.None?
    ensures r.Some? ==> "password" !in r.value && r.value.Keys == ref.value.Keys - {"password"}
    ensures r.Some? ==> forall k :: k in r.value ==> r.value[k] == ref.value[k]
  {
    match ref
    case None => None
    case Some(u) => Some(u - {"password"})
  }

  /** Filtering twice is filtering once. */
  lemma PopPasswordIdempotent(ref: Option<Record>)
    ensures PopPassword(PopPassword(ref)) == PopPassword(ref)
  {
    if ref.Some? {
      assert (ref.value - {"password"}) - {"password"} == ref.value - {"password"};
    }
  }

  /** A SQL lookup seen through the federated interface: a found record is wrapped. */
  function Found(r: Result<Record, Error>): (o: Result<Option<Record>, Error>)
    ensures o.Success? <==> r.Success?
    ensures o.Success? ==> o.value == Some(r.value)
    ensures o.Failure? ==> o.error == r.error
  {
    match r
    case Success(v) => Success(Some(v))
    case Failure(e) => Failure(e)
  }

  // ----- get_user, get_user_by_name -------------------------------------------------

  /** get_user: an id that is a DN goes only to the directory, any other only to SQL. */
  function GetUser(b: Backend, userId: string): (r: Result<Option<Record>, Error>)
    ensures !Ldap.ValidDn(b.directory, userId) ==> r == Found(IdentitySql.GetUser(b.st, userId))
    ensures Ldap.ValidDn(b.directory, userId) ==> r.Success? ==>
      var d := Ldap.GetByDn(b.userLdap, b.directory, userId);
      d.Success? && r.value == PopPassword(d.value)
    ensures r.Success? && r.value.Some? ==> "password" !in r.value.value
  {
    if !Ldap.ValidDn(b.directory, userId) then Found(IdentitySql.GetUser(b.st, userId))
    else
      var u :- Ldap.GetByDn(b.userLdap, b.directory, userId);
      Success(PopPassword(u))
  }

  /** A DN that names a directory entry is the directory's user, password removed. */
  lemma GetUserOfDirectoryEntry(b: Backend, dn: string)
    requires b.directory.reachable && Ldap.ValidDn(b.directory, dn) && dn in b.directory.entries
    requires b.directory.binds(Ldap.OptStr(b.userLdap.user), Ldap.OptStr(b.userLdap.password)) || b.directory.anonymousSearch
    ensures GetUser(b, dn) == Success(PopPassword(Some(Ldap.EntryRecord(b.userLdap.mapping, dn, b.directory.entries[dn]))))
  {
    Ldap.GetByDnFinds(b.userLdap, b.directory, dn);
  }

  /**
   * get_user_by_name: the directory's match whenever there is one; SQL by
   * name only on a directory miss. Either way only "password" is popped.
   */
  function GetUserByName(b: Backend, name: string): (r: Result<Option<Record>, Error>)
    ensures r.Success? && r.value.Some? ==> "password" !in r.value.value
    ensures Ldap.GetByName(b.userLdap, b.directory, name).Success? && Ldap.GetByName(b.userLdap, b.directory, name).value.Some? ==>
      r == Success(PopPassword(Ldap.GetByName(b.userLdap, b.directory, name).value))
    ensures Ldap.GetByName(b.userLdap, b.directory, name) == Success(None) ==>
      r == (match GetUserByNameRaw(b.st, VStr(name))
            case Success(u) => Success(PopPassword(Some(u)))
            case Failure(e) => Failure(e))
  {
    var fromDirectory :- Ldap.GetByName(b.userLdap, b.directory, name);
    if fromDirectory.Some? then Success(PopPassword(fromDirectory))
    else
      var u :- GetUserByNameRaw(b.st, VStr(name));
      Success(PopPassword(Some(u)))
  }

  /**
   * On a directory miss the SQL row keeps every key but the password: a
   * "tenants" value in the row's extra data survives, which the SQL
   * driver's own get_user_by_name strips.
   */
  lemma GetUserByNameKeepsTenants(b: Backend, name: string, id: string)
    requires Ldap.GetByName(b.userLdap, b.directory, name) == Success(None)
    requires StoreValid(b.st) && id in b.st.users && b.st.users[id].name == VStr(name)
    requires "tenants" in b.st.users[id].extra
    ensures GetUserByName(b, name).Success? && GetUserByName(b, name).value.Some?
    ensures "tenants" in GetUserByName(b, name).value.value
    ensures IdentitySql.GetUserByName(b.st, VStr(name)).Success? && "tenants" !in IdentitySql.GetUserByName(b.st, VStr(name)).value
  {
    FirstNamedUnique(b.st.userOrder, b.st.users, id);
    assert id in b.st.userOrder;
  }

  // ----- metadata and tenants of directory users --------------------------------------

  /** `[x.id for x in roles if x.name in names]`. */
  function RoleIdsNamed(roles: seq<Role>, names: seq<string>): (r: seq<Value>)
    ensures |r| <= |roles|
    ensures forall v :: v in r <==> exists x :: x in roles && x.name.VStr? && x.name.s in names && v == VStr(x.id)
  {
    if roles == [] then []
    else
      var rest := RoleIdsNamed(roles[1..], names);
      assert forall x :: x in roles <==> x == roles[0] || x in roles[1..];
      var x := roles[0];
      if x.name.VStr? && x.name.s in names then [VStr(x.id)] + rest else rest
  }

  /**
   * get_metadata: a DN holds the ids of the roles named in default_roles
   * (in list_roles order); any other id has its SQL metadata.
   */
  function GetMetadata(b: Backend, userId: string, tenantId: string): (r: Result<Record, Error>)
    requires StoreValid(b.st)
    ensures !Ldap.ValidDn(b.directory, userId) ==> r == IdentitySql.GetMetadata(b.st, userId, tenantId)
    ensures Ldap.ValidDn(b.directory, userId) ==> r.Success? && r.value.Keys == {"roles"} && r.value["roles"].VList?
    ensures Ldap.ValidDn(b.directory, userId) ==> forall v :: v in r.value["roles"].items <==>
      exists id :: id in b.st.roles && b.st.roles[id].name.VStr? && b.st.roles[id].name.s in b.conf.defaultRoles
        && v == VStr(b.st.roles[id].id)
    ensures Ldap.ValidDn(b.directory, userId) ==> r.value["roles"].items == RoleIdsNamed(ListRoles(b.st), b.conf.defaultRoles)
  {
    if !Ldap.ValidDn(b.directory, userId) then IdentitySql.GetMetadata(b.st, userId, tenantId)
    else
      var roles := ListRoles(b.st);
      var ids := RoleIdsNamed(roles, b.conf.defaultRoles);
      assert forall v :: v in ids <==>
        exists id :: id in b.st.roles && b.st.roles[id].name.VStr? && b.st.roles[id].name.s in b.conf.defaultRoles
          && v == VStr(b.st.roles[id].id) by {
        forall v | v in ids
          ensures exists id :: id in b.st.roles && b.st.roles[id].name.VStr? && b.st.roles[id].name.s in b.conf.defaultRoles
                    && v == VStr(b.st.roles[id].id)
        {
          var x :| x in roles && x.name.VStr? && x.name.s in b.conf.defaultRoles && v == VStr(x.id);
          var id :| id in b.st.roles && b.st.roles[id] == x;
        }
      }
      Success(map["roles" := VList(ids)])
  }

  /** The default tenant's name as a query argument: an unset option is None, which names no tenant. */
  function DefaultTenant(b: Backend): Result<Record, Error>
  {
    match b.conf.defaultTenant
    case Some(name) => GetTenantByName(b.st, name)
    case None => Failure(TenantNotFound("None"))
  }

  /**
   * get_tenants_for_user: a DN belongs to exactly the default tenant (a
   * missing default tenant raises TenantNotFound); any other id has its
   * SQL memberships.
   */
  function GetTenantsForUser(b: Backend, userId: string): (r: Result<seq<string>, Error>)
    ensures !Ldap.ValidDn(b.directory, userId) ==> r == IdentitySql.GetTenantsForUser(b.st, userId)
    ensures Ldap.ValidDn(b.directory, userId) && b.conf.defaultTenant.None? ==> r == Failure(TenantNotFound("None"))
    ensures Ldap.ValidDn(b.directory, userId) && b.conf.defaultTenant.Some? ==>
      (r.Success? <==> exists id :: id in b.st.tenantOrder && id in b.st.tenants && b.st.tenants[id].name == VStr(b.conf.defaultTenant.value))
    ensures Ldap.ValidDn(b.directory, userId) && r.Success? ==>
      b.conf.defaultTenant.Some? && |r.value| == 1 &&
      exists id :: id in b.st.tenants && b.st.tenants[id].name == VStr(b.conf.defaultTenant.value) && r.value[0] == b.st.tenants[id].id
  {
    if !Ldap.ValidDn(b.directory, userId) then IdentitySql.GetTenantsForUser(b.st, userId)
    else
      var tenant :- DefaultTenant(b);
      Success([tenant["id"].s])
  }

  // ----- listings ---------------------------------------------------------------------

  /**
   * get_tenant_users: the tenant's SQL members, followed by every directory
   * user when the tenant is the default tenant (by name).
   */
  function GetTenantUsers(b: Backend, tenantId: string): (r: Result<seq<Record>, Error>)
    requires StoreValid(b.st)
    ensures IdentitySql.GetTenantUsers(b.st, tenantId).Failure? ==> r == IdentitySql.GetTenantUsers(b.st, tenantId)
    ensures r.Success? ==>
      var sql := IdentitySql.GetTenantUsers(b.st, tenantId).value;
      |sql| <= |r.value| && r.value[..|sql|] == sql
    ensures r.Success? && tenantId in b.st.tenants && !PyEq(b.st.tenants[tenantId].name, Ldap.OptStr(b.conf.defaultTenant)) ==>
      r.value == IdentitySql.GetTenantUsers(b.st, tenantId).value
    ensures tenantId in b.st.tenants && PyEq(b.st.tenants[tenantId].name, Ldap.OptStr(b.conf.defaultTenant)) ==>
      (r.Success? <==> Ldap.GetAll(b.userLdap, b.directory).Success?)
    ensures r.Success? && tenantId in b.st.tenants && PyEq(b.st.tenants[tenantId].name, Ldap.OptStr(b.conf.defaultTenant)) ==>
      Ldap.GetAll(b.userLdap, b.directory).Success? &&
      r.value == IdentitySql.GetTenantUsers(b.st, tenantId).value + Ldap.GetAll(b.userLdap, b.directory).value
  {
    var sql :- IdentitySql.GetTenantUsers(b.st, tenantId);
    var tenant := GetTenant(b.st, tenantId).value;
    if PyEq(tenant["name"], Ldap.OptStr(b.conf.defaultTenant)) then
      var fromDirectory :- Ldap.GetAll(b.userLdap, b.directory);
      assert (sql + fromDirectory)[..|sql|] == sql;
      Success(sql + fromDirectory)
    else
      assert sql[..|sql|] == sql;
      Success(sql)
  }

  /** list_users as written: the wrapper has no get_all_users, so the call raises AttributeError. */
  function ListUsersAsWritten(b: Backend): (r: Result<seq<Record>, Error>)
    requires StoreValid(b.st)
  {
    // the SQL listing runs first; its result is lost when the directory call raises
    var sql := IdentitySql.ListUsers(b.st);
    Failure(AttributeError("get_all_users"))
  }

  /** No list of users is ever returned. */
  lemma ListUsersAsWrittenFails(b: Backend)
    requires StoreValid(b.st)
    ensures ListUsersAsWritten(b) == Failure(AttributeError("get_all_users"))
  {
  }

  /** list_users as intended (get_all): the SQL users followed by the directory users, without de-duplication. */
  function ListUsers(b: Backend): (r: Result<seq<Record>, Error>)
    requires StoreValid(b.st)
    ensures r.Success? <==> Ldap.GetAll(b.userLdap, b.directory).Success?
    ensures r.Success? ==> |r.value| == |b.st.users| + |Ldap.GetAll(b.userLdap, b.directory).value|
    ensures r.Success? ==> r.value[..|b.st.users|] == IdentitySql.ListUsers(b.st)
    ensures r.Success? ==> r.value[|b.st.users|..] == Ldap.GetAll(b.userLdap, b.directory).value
  {
    var sql := IdentitySql.ListUsers(b.st);
    var fromDirectory :- Ldap.GetAll(b.userLdap, b.directory);
    assert (sql + fromDirectory)[..|sql|] == sql;
    assert (sql + fromDirectory)[|sql|..] == fromDirectory;
    Success(sql + fromDirectory)
  }

  // ----- authenticate -------------------------------------------------------------------

  /**
   * authenticate, given what the directory's authenticate answered: a
   * directory failure escapes; without a directory record the SQL driver's
   * authenticate decides, calling this driver's get_tenants_for_user and
   * get_metadata. With one, a requested tenant must be among the user's,
   * get_tenant runs even when no tenant was asked for, and the metadata
   * comes from this driver.
   */
  function AuthenticateVia(b: Backend, userId: string, tenantId: Option<string>, password: Value,
                           directoryAnswer: Result<Option<Record>, Error>): (r: Result<AuthResult, Error>)
    requires StoreValid(b.st)
    ensures directoryAnswer.Failure? ==> r == Failure(directoryAnswer.error)
    ensures directoryAnswer == Success(None) ==>
      r == AuthenticateWith(b.st, b.hooks, userId, tenantId, password,
                            u => GetTenantsForUser(b, u), (u, t) => GetMetadata(b, u, t))
    ensures r.Success? ==> "password" !in r.value.user
    ensures (directoryAnswer.Success? && directoryAnswer.value.Some? && GetTenantsForUser(b, userId).Success?
             && TruthyStr(tenantId) && tenantId.value !in GetTenantsForUser(b, userId).value) ==>
      r == Failure(AssertionError("Invalid tenant"))
    ensures (directoryAnswer.Success? && directoryAnswer.value.Some? && GetTenantsForUser(b, userId).Success?
             && tenantId.None?) ==>
      r == Failure(TenantNotFound("None"))
    ensures (directoryAnswer.Success? && directoryAnswer.value.Some? && GetTenantsForUser(b, userId).Success? && tenantId.Some?
             && (TruthyStr(tenantId) ==> tenantId.value in GetTenantsForUser(b, userId).value)
             && GetTenant(b.st, tenantId.value).Success? && GetMetadata(b, userId, tenantId.value).Success?) ==>
      r.Success?
    ensures directoryAnswer.Success? && directoryAnswer.value.Some? && GetTenantsForUser(b, userId).Failure? ==>
      r == Failure(GetTenantsForUser(b, userId).error)
    ensures directoryAnswer.Success? && directoryAnswer.value.Some? && r.Success? ==>
      && GetTenantsForUser(b, userId).Success?
      && (TruthyStr(tenantId) ==> tenantId.value in GetTenantsForUser(b, userId).value)
      && tenantId.Some? && r.value.tenant.Some?
      && GetTenant(b.st, tenantId.value) == Success(r.value.tenant.value)
      && r.value.user == PopPassword(directoryAnswer.value).value
      && Success(r.value.metadata) == GetMetadata(b, userId, tenantId.value)
  {
    var found :- directoryAnswer;
    if found.None? then
      var r := AuthenticateWith(b.st, b.hooks, userId, tenantId, password,
                                u => GetTenantsForUser(b, u), (u, t) => GetMetadata(b, u, t));
      assert r.Success? ==> IdentityCore.NoSecrets(r.value.user);
      r
    else
      var tenants :- GetTenantsForUser(b, userId);
      if TruthyStr(tenantId) && tenantId.value !in tenants then Failure(AssertionError("Invalid tenant"))
      else if tenantId.None? then Failure(TenantNotFound("None"))
      else
        var tenant :- GetTenant(b.st, tenantId.value);
        var metadata :- GetMetadata(b, userId, tenantId.value);
        Success(AuthResult(PopPassword(found).value, Some(tenant), metadata))
  }

  /** authenticate over the corrected directory wrapper (a failed bind or a missing entry is a miss). */
  function Authenticate(b: Backend, userId: string, tenantId: Option<string>, password: Value): (r: Result<AuthResult, Error>)
    requires StoreValid(b.st)
    ensures Ldap.Authenticate(b.userLdap, b.directory, userId, password) == Success(None) ==>
      r == AuthenticateWith(b.st, b.hooks, userId, tenantId, password,
                            u => GetTenantsForUser(b, u), (u, t) => GetMetadata(b, u, t))
    ensures r.Success? ==> "password" !in r.value.user
    ensures (DirectoryUser(b, userId, password) && GetTenantsForUser(b, userId).Success? && TruthyStr(tenantId)
             && tenantId.value !in GetTenantsForUser(b, userId).value) ==>
      r == Failure(AssertionError("Invalid tenant"))
    ensures DirectoryUser(b, userId, password) && GetTenantsForUser(b, userId).Success? && tenantId.None? ==>
      r == Failure(TenantNotFound("None"))
    ensures (DirectoryUser(b, userId, password) && GetTenantsForUser(b, userId).Success? && tenantId.Some?
             && (TruthyStr(tenantId) ==> tenantId.value in GetTenantsForUser(b, userId).value)
             && GetTenant(b.st, tenantId.value).Success? && GetMetadata(b, userId, tenantId.value).Success?) ==>
      r.Success?
    ensures DirectoryUser(b, userId, password) && GetTenantsForUser(b, userId).Failure? ==>
      r == Failure(GetTenantsForUser(b, userId).error)
    ensures DirectoryUser(b, userId, password) && r.Success? ==>
      && GetTenantsForUser(b, userId).Success?
      && (TruthyStr(tenantId) ==> tenantId.value in GetTenantsForUser(b, userId).value)
      && tenantId.Some? && r.value.tenant.Some?
      && GetTenant(b.st, tenantId.value) == Success(r.value.tenant.value)
      && r.value.user == PopPassword(Ldap.Authenticate(b.userLdap, b.directory, userId, password).value).value
      && Success(r.value.metadata) == GetMetadata(b, userId, tenantId.value)
  {
    var r := AuthenticateVia(b, userId, tenantId, password, Ldap.Authenticate(b.userLdap, b.directory, userId, password));
    r
  }

  /** authenticate as written: over the wrapper's authenticate as it stands. */
  function AuthenticateAsWritten(b: Backend, userId: string, tenantId: Option<string>, password: Value): (r: Result<AuthResult, Error>)
    requires StoreValid(b.st)
    ensures r.Success? ==> "password" !in r.value.user
  {
    AuthenticateVia(b, userId, tenantId, password, Ldap.AuthenticateAsWritten(b.userLdap, b.directory, userId, password))
  }

  /**
   * As written, no SQL user can log in on a running server at a URL ldap.initialize accepts:
   * the wrapper's IndexError escapes before the SQL driver is consulted.
   */
  lemma AuthenticateAsWrittenRejectsSqlUser(b: Backend, userId: string, tenantId: Option<string>, password: Value)
    requires StoreValid(b.st) && b.directory.reachable && !b.directory.isDn(userId)
    ensures AuthenticateAsWritten(b, userId, tenantId, password) == Failure(IndexError)
  {
    Ldap.AuthenticateAsWrittenRejectsNonDn(b.userLdap, b.directory, userId, password);
  }

  /**
   * As written, with anonymous search a wrong password for a directory user
   * still logs in to the default tenant.
   */
  lemma AuthenticateAsWrittenSkipsBind(b: Backend, userId: string, password: Value, id: string)
    requires StoreValid(b.st) && userId != "" && b.directory.reachable && b.directory.anonymousSearch
    requires b.directory.isDn(userId) && userId in b.directory.entries
    requires !b.directory.binds(VStr(userId), Ldap.CredentialOr(password, b.userLdap.password))
    requires b.conf.defaultTenant.Some? && id in b.st.tenants && b.st.tenants[id].name == VStr(b.conf.defaultTenant.value)
    ensures AuthenticateAsWritten(b, userId, Some(id), password).Success?
  {
    Ldap.AuthenticateAsWrittenSkipsBind(b.userLdap, b.directory, userId, password);
    var answer := Ldap.AuthenticateAsWritten(b.userLdap, b.directory, userId, password);
    ViaDirectoryRecord(b, userId, password, id, answer);
  }

  /** Any directory record for a DN admits its user to the default tenant. */
  lemma ViaDirectoryRecord(b: Backend, userId: string, password: Value, id: string, answer: Result<Option<Record>, Error>)
    requires StoreValid(b.st) && Ldap.ValidDn(b.directory, userId) && answer.Success? && answer.value.Some?
    requires b.conf.defaultTenant.Some? && id in b.st.tenants && b.st.tenants[id].name == VStr(b.conf.defaultTenant.value)
    ensures AuthenticateVia(b, userId, Some(id), password, answer).Success?
  {
    GetTenantByNameFinds(b.st, id);
    assert GetTenantsForUser(b, userId) == Success([id]);
    assert GetTenant(b.st, id) == Success(RowToDict(b.st.tenants[id]));
    assert GetMetadata(b, userId, id).Success?;
  }

  /** Over the corrected wrapper a failed bind is a directory miss, so only a SQL user can log in. */
  lemma AuthenticateNeedsBind(b: Backend, userId: string, tenantId: Option<string>, password: Value)
    requires StoreValid(b.st) && userId !in b.st.users
    requires !b.directory.binds(Ldap.CredentialOr(VStr(userId), b.userLdap.user), Ldap.CredentialOr(password, b.userLdap.password))
    ensures Authenticate(b, userId, tenantId, password) == Failure(AssertionError("Invalid user / password"))
  {
    assert Ldap.Authenticate(b.userLdap, b.directory, userId, password) == Success(None);
  }

  /** The directory vouches for the user: its bind succeeded on an existing entry. */
  predicate DirectoryUser(b: Backend, userId: string, password: Value)
  {
    var a := Ldap.Authenticate(b.userLdap, b.directory, userId, password);
    a.Success? && a.value.Some?
  }

  /**
   * An id that is not a DN never reaches the directory's answers: the
   * federated authenticate is exactly the SQL driver's.
   */
  lemma AuthenticateSqlUser(b: Backend, userId: string, tenantId: Option<string>, password: Value)
    requires StoreValid(b.st) && !b.directory.isDn(userId)
    ensures Authenticate(b, userId, tenantId, password) == IdentitySql.Authenticate(b.st, b.hooks, userId, tenantId, password)
  {
    assert !Ldap.ValidDn(b.directory, userId);
    IdentitySql.AuthenticateWithLookups(b.st, b.hooks, userId, tenantId, password,
      u => GetTenantsForUser(b, u), (u, t) => GetMetadata(b, u, t),
      u => IdentitySql.GetTenantsForUser(b.st, u), (u, t) => IdentitySql.GetMetadata(b.st, u, t));
  }

  /** A directory user who names no tenant is refused: get_tenant(None) finds nothing. */
  lemma UnscopedDirectoryLoginFails(b: Backend, userId: string, password: Value)
    requires StoreValid(b.st) && userId != "" && DirectoryUser(b, userId, password)
    requires b.conf.defaultTenant.Some?
    requires exists id :: id in b.st.tenantOrder && id in b.st.tenants && b.st.tenants[id].name == VStr(b.conf.defaultTenant.value)
    ensures Authenticate(b, userId, None, password) == Failure(TenantNotFound("None"))
  {
    assert Ldap.ValidDn(b.directory, userId);
  }

  /**
   * Without a configured default tenant no directory user can log in,
   * whichever tenant is asked for: get_tenants_for_user raises first.
   */
  lemma DirectoryLoginWithoutDefaultTenant(b: Backend, userId: string, tenantId: Option<string>, password: Value)
    requires StoreValid(b.st) && userId != "" && DirectoryUser(b, userId, password)
    requires b.conf.defaultTenant.None?
    ensures Authenticate(b, userId, tenantId, password) == Failure(TenantNotFound("None"))
  {
    assert Ldap.ValidDn(b.directory, userId);
  }

  /**
   * A directory user who binds and asks for the default tenant is let in
   * with that tenant and the default roles.
   */
  lemma DirectoryLoginToDefaultTenant(b: Backend, userId: string, password: Value, id: string)
    requires StoreValid(b.st) && userId != "" && DirectoryUser(b, userId, password)
    requires b.conf.defaultTenant.Some? && id in b.st.tenants && b.st.tenants[id].name == VStr(b.conf.defaultTenant.value)
    ensures Authenticate(b, userId, Some(id), password).Success?
    ensures Authenticate(b, userId, Some(id), password).value.tenant == Some(RowToDict(b.st.tenants[id]))
    ensures Authenticate(b, userId, Some(id), password).value.metadata == GetMetadata(b, userId, id).value
  {
    assert Ldap.ValidDn(b.directory, userId);
    GetTenantByNameFinds(b.st, id);
    assert GetTenantsForUser(b, userId) == Success([id]);
    assert GetTenant(b.st, id) == Success(RowToDict(b.st.tenants[id]));
    assert GetMetadata(b, userId, id).Success?;
  }
}
