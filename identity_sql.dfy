/**
 * The SQL identity driver: users, tenants, roles, tenant memberships and
 * per-(user, tenant) metadata held in five tables. Rows are kept as maps by
 * primary key plus the order in which a query returns them; every write is
 * a method of `SqlIdentity`, every read a function of the table contents.
 */
module IdentitySql {
  import opened Wrappers
  import opened Values
  import opened Collections
  import opened SqlRows
  import IdentityCore

  // ----- rows -----------------------------------------------------------------------

  /** A row of the user or of the tenant table: id and name columns plus the extra column. */
  datatype Row = Row(id: string, name: Value, extra: ExtraBag)

  /** A row of the role table (no extra column). */
  datatype Role = Role(id: string, name: Value)

  /** A row of the user_tenant_membership join table. */
  datatype Membership = Membership(userId: string, tenantId: string)

  /** The primary key of the metadata table. */
  datatype MetaKey = MetaKey(userId: string, tenantId: string)

  /** The indexed attributes of users and tenants. */
  const RowAttributes: set<string> := {"id", "name"}

  /** to_dict of a user or tenant row. */
  function RowToDict(row: Row): (d: Record)
    ensures d.Keys == RowAttributes + row.extra.Keys
    ensures d["id"] == VStr(row.id) && d["name"] == row.name
    ensures forall k :: k in row.extra && k !in RowAttributes ==> d[k] == row.extra[k]
    ensures "extra" !in d
  {
    ToDict(map["id" := VStr(row.id), "name" := row.name], row.extra)
  }

  /** to_dict(include_extra_dict=True): the same with the extra mapping under "extra". */
  function RowToDictWithExtra(row: Row): (d: Record)
    ensures d.Keys == RowAttributes + row.extra.Keys + {"extra"}
    ensures d["extra"] == VDict(row.extra)
    ensures d - {"extra"} == RowToDict(row)
  {
    RowToDict(row)["extra" := VDict(row.extra)]
  }

  /** from_dict of a ref whose id is a string. */
  function RowFromDict(ref: Record): (row: Row)
    requires "id" in ref && ref["id"].VStr?
    ensures VStr(row.id) == ref["id"] && row.name == Column(ref, "name")
    ensures row.extra == ExtraOf(ref, RowAttributes)
  {
    Row(ref["id"].s, Column(ref, "name"), ExtraOf(ref, RowAttributes))
  }

  /** A user as the driver hands it out: its dictionary without secrets. */
  function StripUser(row: Row): (d: Record)
    ensures IdentityCore.NoSecrets(d)
    ensures d.Keys == RowToDict(row).Keys - IdentityCore.Secrets
    ensures d["id"] == VStr(row.id) && d["name"] == row.name
  {
    RowToDict(row) - IdentityCore.Secrets
  }

  /** filter_user never fails on a stored row: the row's dictionary has no "extra" key. */
  lemma FilterStoredRow(row: Row)
    ensures IdentityCore.FilterUser(RowToDict(row)) == Success(StripUser(row))
  {
  }

  // ----- collaborators outside the model ----------------------------------------------

  /**
   * The password check and hash of the utils module and the name cleaning of
   * the clean module, which this model takes as given functions.
   */
  datatype Hooks = Hooks(
    checkPassword: (Value, Value) -> bool,
    hashPassword: Value -> Value,
    cleanUserName: Value -> Result<Value, Error>,
    cleanTenantName: Value -> Result<Value, Error>)

  /** hash_user_password: a copy of the user whose password, when present, is hashed. */
  function HashUserPassword(hooks: Hooks, user: Record): (r: Record)
    ensures r.Keys == user.Keys
    ensures forall k :: k in user && k != "password" ==> r[k] == user[k]
    ensures "password" in user ==> r["password"] == hooks.hashPassword(user["password"])
  {
    if "password" in user then user["password" := hooks.hashPassword(user["password"])] else user
  }

  // ----- the tables --------------------------------------------------------------------

  /** The contents of the five tables. */
  datatype Store = Store(
    users: map<string, Row>, userOrder: seq<string>,
    tenants: map<string, Row>, tenantOrder: seq<string>,
    roles: map<string, Role>, roleOrder: seq<string>,
    members: seq<Membership>,
    metadata: map<MetaKey, Record>)

  /** Rows keyed by their own id, with a non-NULL name. */
  predicate KeyedRows(rows: map<string, Row>)
  {
    forall id :: id in rows ==> rows[id].id == id && rows[id].name != VNone
  }

  /** The unique constraint on the name column. */
  predicate UniqueNames(rows: map<string, Row>)
  {
    forall a, b :: a in rows && b in rows && rows[a].name == rows[b].name ==> a == b
  }

  predicate UniqueRoleNames(roles: map<string, Role>)
  {
    forall a, b :: a in roles && b in roles && roles[a].name == roles[b].name ==> a == b
  }

  /** What the schema guarantees: primary keys, unique non-NULL names and the foreign keys of memberships. */
  predicate StoreValid(st: Store)
  {
    && Enumerates(st.userOrder, st.users.Keys)
    && Enumerates(st.tenantOrder, st.tenants.Keys)
    && Enumerates(st.roleOrder, st.roles.Keys)
    && KeyedRows(st.users) && UniqueNames(st.users)
    && KeyedRows(st.tenants) && UniqueNames(st.tenants)
    && (forall id :: id in st.roles ==> st.roles[id].id == id && st.roles[id].name != VNone)
    && UniqueRoleNames(st.roles)
    && Distinct(st.members)
    && (forall m :: m in st.members ==> m.userId in st.users && m.tenantId in st.tenants)
  }

  /** Another row than `except` already carries this name. */
  predicate NameTaken(rows: map<string, Row>, name: Value, except: string)
  {
    exists id :: id in rows && id != except && rows[id].name == name
  }

  predicate RoleNameTaken(roles: map<string, Role>, name: Value)
  {
    exists id :: id in roles && roles[id].name == name
  }

  // ----- reads ---------------------------------------------------------------------

  /** The first id in query order whose row carries the name. */
  function FirstNamed(order: seq<string>, rows: map<string, Row>, name: Value): (r: Option<string>)
    ensures r.Some? ==> r.value in order && r.value in rows && rows[r.value].name == name
    ensures r.None? ==> forall id :: id in order && id in rows ==> rows[id].name != name
  {
    if order == [] then None
    else if order[0] in rows && rows[order[0]].name == name then Some(order[0])
    else FirstNamed(order[1..], rows, name)
  }

  /** With unique names, a name finds exactly its row. */
  lemma FirstNamedUnique(order: seq<string>, rows: map<string, Row>, id: string)
    requires UniqueNames(rows) && id in rows && id in order
    ensures FirstNamed(order, rows, rows[id].name) == Some(id)
  {
  }

  function GetTenant(st: Store, tenantId: string): (r: Result<Record, Error>)
    ensures r.Success? <==> tenantId in st.tenants
    ensures r.Failure? ==> r.error == TenantNotFound(tenantId)
    ensures r.Success? ==> r.value == RowToDict(st.tenants[tenantId])
  {
    if tenantId in st.tenants then Success(RowToDict(st.tenants[tenantId]))
    else Failure(TenantNotFound(tenantId))
  }

  function GetTenantByName(st: Store, name: string): (r: Result<Record, Error>)
    ensures r.Success? <==> exists id :: id in st.tenantOrder && id in st.tenants && st.tenants[id].name == VStr(name)
    ensures r.Failure? ==> r.error == TenantNotFound(name)
    ensures r.Success? ==> "name" in r.value && r.value["name"] == VStr(name)
    ensures r.Success? ==> "id" in r.value && r.value["id"].VStr?
    ensures r.Success? ==> exists id :: id in st.tenants && st.tenants[id].name == VStr(name) && r.value == RowToDict(st.tenants[id])
  {
    match FirstNamed(st.tenantOrder, st.tenants, VStr(name))
    case Some(id) => Success(RowToDict(st.tenants[id]))
    case None => Failure(TenantNotFound(name))
  }

  /** In a valid store the name lookup returns the one tenant of that name. */
  lemma GetTenantByNameFinds(st: Store, id: string)
    requires StoreValid(st) && id in st.tenants && st.tenants[id].name.VStr?
    ensures GetTenantByName(st, st.tenants[id].name.s) == GetTenant(st, id)
  {
    FirstNamedUnique(st.tenantOrder, st.tenants, id);
  }

  function GetUserRaw(st: Store, userId: string): (r: Result<Record, Error>)
    ensures r.Success? <==> userId in st.users
    ensures r.Failure? ==> r.error == UserNotFound(userId)
    ensures r.Success? ==> r.value == RowToDict(st.users[userId])
  {
    if userId in st.users then Success(RowToDict(st.users[userId]))
    else Failure(UserNotFound(userId))
  }

  function GetUserByNameRaw(st: Store, name: Value): (r: Result<Record, Error>)
    ensures r.Success? <==> exists id :: id in st.userOrder && id in st.users && st.users[id].name == name
    ensures r.Success? ==> "name" in r.value && r.value["name"] == name
  {
    match FirstNamed(st.userOrder, st.users, name)
    case Some(id) => Success(RowToDict(st.users[id]))
    case None => Failure(UserNotFound(if name.VStr? then name.s else "None"))
  }

  /** get_user: the stored user through filter_user. */
  function GetUser(st: Store, userId: string): (r: Result<Record, Error>)
    ensures r == (if userId in st.users then IdentityCore.FilterUser(RowToDict(st.users[userId]))
                  else Failure(UserNotFound(userId)))
    ensures r.Success? ==> IdentityCore.NoSecrets(r.value)
  {
    if userId in st.users then
      FilterStoredRow(st.users[userId]);
      Success(StripUser(st.users[userId]))
    else Failure(UserNotFound(userId))
  }

  function GetUserByName(st: Store, name: Value): (r: Result<Record, Error>)
    ensures r.Success? <==> GetUserByNameRaw(st, name).Success?
    ensures r.Success? ==> IdentityCore.NoSecrets(r.value) && "name" in r.value && r.value["name"] == name
  {
    match FirstNamed(st.userOrder, st.users, name)
    case Some(id) => Success(StripUser(st.users[id]))
    case None => Failure(UserNotFound(if name.VStr? then name.s else "None"))
  }

  /** get_metadata: the data of the (user, tenant) row. */
  function GetMetadata(st: Store, userId: string, tenantId: string): (r: Result<Record, Error>)
    ensures r.Success? <==> MetaKey(userId, tenantId) in st.metadata
    ensures r.Failure? ==> r.error == MetadataNotFound
    ensures r.Success? ==> r.value == st.metadata[MetaKey(userId, tenantId)]
  {
    var key := MetaKey(userId, tenantId);
    if key in st.metadata then Success(st.metadata[key]) else Failure(MetadataNotFound)
  }

  function GetRole(st: Store, roleId: string): (r: Result<Role, Error>)
    ensures r.Success? <==> roleId in st.roles
    ensures r.Failure? ==> r.error == RoleNotFound(roleId)
    ensures r.Success? ==> r.value == st.roles[roleId]
  {
    if roleId in st.roles then Success(st.roles[roleId]) else Failure(RoleNotFound(roleId))
  }

  /** The stripped users of the ids in order. */
  function StrippedUsers(order: seq<string>, users: map<string, Row>): (r: seq<Record>)
    requires forall id :: id in order ==> id in users
    ensures |r| == |order|
    ensures forall i :: 0 <= i < |order| ==> r[i] == StripUser(users[order[i]])
  {
    if order == [] then [] else [StripUser(users[order[0]])] + StrippedUsers(order[1..], users)
  }

  /** list_users: every user through filter_user in query order. */
  function ListUsers(st: Store): (r: seq<Record>)
    requires StoreValid(st)
    ensures |r| == |st.users|
    ensures forall i :: 0 <= i < |r| ==> IdentityCore.NoSecrets(r[i])
    ensures forall id :: id in st.users ==> StripUser(st.users[id]) in r
  {
    EnumeratesLength(st.userOrder, st.users.Keys);
    StrippedUsersCover(st.userOrder, st.users);
    StrippedUsers(st.userOrder, st.users)
  }

  lemma StrippedUsersCover(order: seq<string>, users: map<string, Row>)
    requires forall id :: id in order ==> id in users
    ensures forall id :: id in order ==> StripUser(users[id]) in StrippedUsers(order, users)
  {
    var r := StrippedUsers(order, users);
    forall id | id in order ensures StripUser(users[id]) in r {
      var i :| 0 <= i < |order| && order[i] == id;
      assert r[i] == StripUser(users[id]);
    }
  }

  /** The role rows in query order. */
  function RolesInOrder(order: seq<string>, roles: map<string, Role>): (r: seq<Role>)
    requires forall id :: id in order ==> id in roles
    ensures |r| == |order|
    ensures forall i :: 0 <= i < |order| ==> r[i] == roles[order[i]]
  {
    if order == [] then [] else [roles[order[0]]] + RolesInOrder(order[1..], roles)
  }

  function ListRoles(st: Store): (r: seq<Role>)
    requires StoreValid(st)
    ensures |r| == |st.roles|
    ensures forall role :: role in r <==> role in st.roles.Values
  {
    EnumeratesLength(st.roleOrder, st.roles.Keys);
    var r := RolesInOrder(st.roleOrder, st.roles);
    assert forall role :: role in st.roles.Values ==> role in r by {
      forall role | role in st.roles.Values ensures role in r {
        var id :| id in st.roles && st.roles[id] == role;
        var i :| 0 <= i < |st.roleOrder| && st.roleOrder[i] == id;
        assert r[i] == role;
      }
    }
    r
  }

  function TenantDicts(order: seq<string>, tenants: map<string, Row>): (r: seq<Record>)
    requires forall id :: id in order ==> id in tenants
    ensures |r| == |order|
    ensures forall i :: 0 <= i < |order| ==> r[i] == RowToDict(tenants[order[i]])
  {
    if order == [] then [] else [RowToDict(tenants[order[0]])] + TenantDicts(order[1..], tenants)
  }

  /** get_tenants: every tenant's dictionary in query order. */
  function GetTenants(st: Store): (r: seq<Record>)
    requires StoreValid(st)
    ensures |r| == |st.tenants|
    ensures forall id :: id in st.tenants ==> RowToDict(st.tenants[id]) in r
  {
    EnumeratesLength(st.tenantOrder, st.tenants.Keys);
    var r := TenantDicts(st.tenantOrder, st.tenants);
    assert forall id :: id in st.tenants ==> RowToDict(st.tenants[id]) in r by {
      forall id | id in st.tenants ensures RowToDict(st.tenants[id]) in r {
        var i :| 0 <= i < |st.tenantOrder| && st.tenantOrder[i] == id;
        assert r[i] == RowToDict(st.tenants[id]);
      }
    }
    r
  }

  /** The tenant ids of a user's memberships, in membership order. */
  function TenantsOf(members: seq<Membership>, userId: string): (r: seq<string>)
    ensures forall t :: t in r <==> Membership(userId, t) in members
    ensures Distinct(members) ==> Distinct(r)
  {
    if members == [] then []
    else
      var rest := TenantsOf(members[1..], userId);
      if members[0].userId == userId then
        assert Distinct(members) ==> members[0].tenantId !in rest;
        DistinctCons(members[0].tenantId, rest);
        [members[0].tenantId] + rest
      else rest
  }

  lemma DistinctCons<T>(x: T, xs: seq<T>)
    ensures x !in xs && Distinct(xs) ==> Distinct([x] + xs)
  {
    if x !in xs && Distinct(xs) {
      forall i, j | 0 <= i < j < |[x] + xs| ensures ([x] + xs)[i] != ([x] + xs)[j] {
        assert ([x] + xs)[j] == xs[j - 1];
      }
    }
  }

  /** The users among the ids in order that are members of the tenant. */
  function UsersIn(order: seq<string>, users: map<string, Row>, members: seq<Membership>, tenantId: string): (r: seq<Record>)
    requires forall id :: id in order ==> id in users
    ensures |r| <= |order|
    ensures forall d :: d in r <==> exists id :: id in order && Membership(id, tenantId) in members && d == StripUser(users[id])
  {
    if order == [] then []
    else
      var rest := UsersIn(order[1..], users, members, tenantId);
      if Membership(order[0], tenantId) in members then [StripUser(users[order[0]])] + rest else rest
  }

  /** get_tenant_users: the members of an existing tenant through filter_user. */
  function GetTenantUsers(st: Store, tenantId: string): (r: Result<seq<Record>, Error>)
    requires StoreValid(st)
    ensures r.Success? <==> tenantId in st.tenants
    ensures r.Failure? ==> r.error == TenantNotFound(tenantId)
    ensures r.Success? ==> forall id :: id in st.users ==>
      (StripUser(st.users[id]) in r.value <== Membership(id, tenantId) in st.members)
    ensures r.Success? ==> forall d :: d in r.value <==>
      exists id :: id in st.userOrder && Membership(id, tenantId) in st.members && d == StripUser(st.users[id])
    ensures r.Success? ==> forall d :: d in r.value ==> IdentityCore.NoSecrets(d)
  {
    if tenantId !in st.tenants then Failure(TenantNotFound(tenantId))
    else Success(UsersIn(st.userOrder, st.users, st.members, tenantId))
  }

  /** get_tenants_for_user: the tenant ids of an existing user's memberships. */
  function GetTenantsForUser(st: Store, userId: string): (r: Result<seq<string>, Error>)
    ensures r.Success? <==> userId in st.users
    ensures r.Failure? ==> r.error == UserNotFound(userId)
    ensures r.Success? ==> forall t :: t in r.value <==> Membership(userId, t) in st.members
  {
    if userId !in st.users then Failure(UserNotFound(userId))
    else Success(TenantsOf(st.members, userId))
  }

  /** get_roles_for_user_and_tenant: the "roles" value of the metadata, [] without one. */
  function GetRolesForUserAndTenant(st: Store, userId: string, tenantId: string): (r: Result<Value, Error>)
    ensures userId !in st.users ==> r == Failure(UserNotFound(userId))
    ensures userId in st.users && tenantId !in st.tenants ==> r == Failure(TenantNotFound(tenantId))
    ensures r.Success? <==> userId in st.users && tenantId in st.tenants
    ensures r.Success? ==> r.value == DictGet(MetaOf(st.metadata, MetaKey(userId, tenantId)), "roles", VList([]))
  {
    if userId !in st.users then Failure(UserNotFound(userId))
    else if tenantId !in st.tenants then Failure(TenantNotFound(tenantId))
    else
      var md := GetMetadata(st, userId, tenantId);
      var meta := if md.Success? then md.value else map[];
      Success(DictGet(meta, "roles", VList([])))
  }

  // ----- authenticate ------------------------------------------------------------------

  /** What authenticate returns: the filtered user, the tenant if any, and the metadata. */
  datatype AuthResult = AuthResult(user: Record, tenant: Option<Record>, metadata: Record)

  /**
   * authenticate, with the two calls that a subclass may override
   * (get_tenants_for_user and get_metadata) given as functions. A wrong user
   * or password gives the same error; a tenant must be among the user's; a
   * tenant row that has gone gives no tenant and no metadata; missing
   * metadata gives empty metadata.
   */
  function AuthenticateWith(st: Store, hooks: Hooks, userId: string, tenantId: Option<string>, password: Value,
                            tenantsOf: string -> Result<seq<string>, Error>,
                            metadataOf: (string, string) -> Result<Record, Error>): (r: Result<AuthResult, Error>)
    ensures userId !in st.users ==> r == Failure(AssertionError("Invalid user / password"))
    ensures userId in st.users && !hooks.checkPassword(password, DictGet(RowToDict(st.users[userId]), "password", VNone)) ==>
      r == Failure(AssertionError("Invalid user / password"))
    ensures r.Success? ==> userId in st.users && r.value.user == StripUser(st.users[userId])
    ensures r.Success? && tenantId.None? ==> r.value.tenant == None && r.value.metadata == map[]
    ensures r.Success? && tenantId.Some? ==> tenantsOf(userId).Success? && tenantId.value in tenantsOf(userId).value
    ensures r.Success? && r.value.tenant.Some? ==> tenantId.Some? && GetTenant(st, tenantId.value) == Success(r.value.tenant.value)
    ensures r.Success? && r.value.tenant.None? ==> r.value.metadata == map[]
    ensures (userId in st.users && tenantId.Some? && tenantsOf(userId).Success? && tenantId.value !in tenantsOf(userId).value &&
             hooks.checkPassword(password, DictGet(RowToDict(st.users[userId]), "password", VNone))) ==>
      r == Failure(AssertionError("Invalid tenant"))
  {
    var raw := GetUserRaw(st, userId);
    if raw.Failure? then Failure(AssertionError("Invalid user / password"))
    else if !hooks.checkPassword(password, DictGet(raw.value, "password", VNone)) then
      Failure(AssertionError("Invalid user / password"))
    else
      FilterStoredRow(st.users[userId]);
      var user := StripUser(st.users[userId]);
      if tenantId.None? then Success(AuthResult(user, None, map[]))
      else
        var tenants :- tenantsOf(userId);
        if tenantId.value !in tenants then Failure(AssertionError("Invalid tenant"))
        else
          var tenant := GetTenant(st, tenantId.value);
          if tenant.Failure? then Success(AuthResult(user, None, map[]))
          else
            var md := metadataOf(userId, tenantId.value);
            if md.Success? then Success(AuthResult(user, Some(tenant.value), md.value))
            else if md.error.TenantNotFound? then Success(AuthResult(user, None, map[]))
            else if md.error == MetadataNotFound then Success(AuthResult(user, Some(tenant.value), map[]))
            else Failure(md.error)
  }

  /** The authentication only asks its lookups about the user and tenant it was given. */
  lemma AuthenticateWithLookups(st: Store, hooks: Hooks, userId: string, tenantId: Option<string>, password: Value,
                                tenantsOf: string -> Result<seq<string>, Error>,
                                metadataOf: (string, string) -> Result<Record, Error>,
                                tenantsOf': string -> Result<seq<string>, Error>,
                                metadataOf': (string, string) -> Result<Record, Error>)
    requires tenantsOf(userId) == tenantsOf'(userId)
    requires tenantId.Some? ==> metadataOf(userId, tenantId.value) == metadataOf'(userId, tenantId.value)
    ensures AuthenticateWith(st, hooks, userId, tenantId, password, tenantsOf, metadataOf)
         == AuthenticateWith(st, hooks, userId, tenantId, password, tenantsOf', metadataOf')
  {
  }

  /** The SQL driver's own authenticate. */
  function Authenticate(st: Store, hooks: Hooks, userId: string, tenantId: Option<string>, password: Value): (r: Result<AuthResult, Error>)
    ensures r.Success? ==> userId in st.users && IdentityCore.NoSecrets(r.value.user)
    ensures r.Success? && tenantId.Some? ==> Membership(userId, tenantId.value) in st.members
    ensures r.Success? && r.value.tenant.Some? ==>
      tenantId.Some? && r.value.metadata == MetaOf(st.metadata, MetaKey(userId, tenantId.value))
  {
    AuthenticateWith(st, hooks, userId, tenantId, password,
                     u => GetTenantsForUser(st, u), (u, t) => GetMetadata(st, u, t))
  }

  /** A valid member with the right password always gets in, with the tenant's row and metadata. */
  lemma AuthenticateMember(st: Store, hooks: Hooks, userId: string, tenantId: string, password: Value)
    requires Membership(userId, tenantId) in st.members && StoreValid(st)
    requires hooks.checkPassword(password, DictGet(RowToDict(st.users[userId]), "password", VNone))
    ensures Authenticate(st, hooks, userId, Some(tenantId), password)
      == Success(AuthResult(StripUser(st.users[userId]), Some(RowToDict(st.tenants[tenantId])),
                            MetaOf(st.metadata, MetaKey(userId, tenantId))))
  {
    assert userId in st.users && tenantId in st.tenants;
    AuthenticateWithMember(st, hooks, userId, tenantId, password,
                           u => GetTenantsForUser(st, u), (u, t) => GetMetadata(st, u, t));
  }

  /** The step of AuthenticateMember for any lookups that list the tenant and find the metadata or report none. */
  lemma AuthenticateWithMember(st: Store, hooks: Hooks, userId: string, tenantId: string, password: Value,
                               tenantsOf: string -> Result<seq<string>, Error>,
                               metadataOf: (string, string) -> Result<Record, Error>)
    requires userId in st.users && tenantId in st.tenants
    requires hooks.checkPassword(password, DictGet(RowToDict(st.users[userId]), "password", VNone))
    requires tenantsOf(userId).Success? && tenantId in tenantsOf(userId).value
    requires metadataOf(userId, tenantId).Success? || metadataOf(userId, tenantId) == Failure(MetadataNotFound)
    ensures AuthenticateWith(st, hooks, userId, Some(tenantId), password, tenantsOf, metadataOf)
      == Success(AuthResult(StripUser(st.users[userId]), Some(RowToDict(st.tenants[tenantId])),
                            if metadataOf(userId, tenantId).Success? then metadataOf(userId, tenantId).value else map[]))
  {
  }

  // ----- role sets in metadata -------------------------------------------------------

  /** The metadata of a key, {} without a row. */
  function MetaOf(md: map<MetaKey, Record>, key: MetaKey): (r: Record)
    ensures key in md ==> r == md[key]
    ensures key !in md ==> r == map[]
  {
    if key in md then md[key] else map[]
  }

  /** Values Python can put in a set. */
  predicate Hashable(v: Value)
  {
    !v.VList? && !v.VDict?
  }

  /** Python `set(v)`: the elements of a list, the characters of a string, the keys of a dictionary. */
  function ElementSet(v: Value): (r: Result<set<Value>, Error>)
    ensures r.Failure? ==> r.error == TypeError
    ensures r.Success? ==> forall x :: x in r.value ==> Hashable(x)
    ensures v.VList? ==> (r.Success? <==> forall x :: x in v.items ==> Hashable(x))
    ensures v.VList? && r.Success? ==> r.value == set x | x in v.items
    ensures v.VNone? || v.VBool? || v.VInt? ==> r.Failure?
  {
    match v
    case VList(xs) => if forall x :: x in xs ==> Hashable(x) then Success(set x | x in xs) else Failure(TypeError)
    case VStr(s) => Success(set c | c in s :: VStr([c]))
    case VDict(m) => Success(set k | k in m :: VStr(k))
    case _ => Failure(TypeError)
  }

  /** `set(metadata.get('roles', []))`. */
  function RoleSet(meta: Record): (r: Result<set<Value>, Error>)
    ensures "roles" !in meta ==> r.Success? && r.value == {}
  {
    var none: seq<Value> := [];
    assert (set x | x in none) == {};
    ElementSet(DictGet(meta, "roles", VList([])))
  }

  /** after is before with "roles" replaced by a list of exactly the given roles. */
  predicate RolesWritten(before: Record, after: Record, roles: set<Value>)
  {
    && "roles" in after && after["roles"].VList?
    && Enumerates(after["roles"].items, roles)
    && after - {"roles"} == before - {"roles"}
  }

  /** Reading back a written role list gives the role set that was written. */
  lemma RolesWrittenRoleSet(before: Record, after: Record, roles: set<Value>)
    requires RolesWritten(before, after, roles)
    requires forall x :: x in roles ==> Hashable(x)
    ensures RoleSet(after) == Success(roles)
  {
    var xs := after["roles"].items;
    assert forall x :: x in xs ==> Hashable(x);
    assert (set x | x in xs) == roles;
  }

  /** Granting a role and then revoking it gives back the original role set and other metadata. */
  lemma {:induction false} GrantThenRevoke(before: Record, granted: Record, revoked: Record, roles: set<Value>, role: Value)
    requires RoleSet(before) == Success(roles) && role !in roles && Hashable(role)
    requires RolesWritten(before, granted, roles + {role})
    requires RolesWritten(granted, revoked, (roles + {role}) - {role})
    ensures RoleSet(revoked) == RoleSet(before)
    ensures revoked - {"roles"} == before - {"roles"}
  {
    assert (roles + {role}) - {role} == roles;
    RolesWrittenRoleSet(granted, revoked, roles);
  }

  /** What remove_role_from_user_and_tenant does to one metadata row (delete_role's loop body). */
  predicate Revoked(before: Record, after: Record, role: Value)
  {
    if RoleSet(before).Success? && role in RoleSet(before).value then RolesWritten(before, after, RoleSet(before).value - {role})
    else after == before
  }

  /**
   * The sweep of delete_role part-way: the keys still pending are untouched,
   * every other key holds a role set that has had the role revoked.
   */
  predicate SweptExcept(before: map<MetaKey, Record>, after: map<MetaKey, Record>, pending: set<MetaKey>, role: Value)
  {
    && after.Keys == before.Keys
    && pending <= before.Keys
    && forall k :: k in after ==>
         if k in pending then after[k] == before[k]
         else RoleSet(before[k]).Success? && Revoked(before[k], after[k], role)
  }

  /** Revoking the role from one pending key advances the sweep. */
  lemma SweptStep(before: map<MetaKey, Record>, after: map<MetaKey, Record>, pending: set<MetaKey>, role: Value, k: MetaKey, v: Record)
    requires SweptExcept(before, after, pending, role) && k in pending
    requires RoleSet(before[k]).Success? && Revoked(before[k], v, role)
    ensures SweptExcept(before, after[k := v], pending - {k}, role)
  {
  }

  // ----- memberships and metadata of a deleted user or tenant --------------------------

  function DropUser(ms: seq<Membership>, userId: string): (r: seq<Membership>)
    ensures forall m :: m in r <==> m in ms && m.userId != userId
    ensures Distinct(ms) ==> Distinct(r)
  {
    if ms == [] then []
    else
      var rest := DropUser(ms[1..], userId);
      if ms[0].userId == userId then rest
      else
        assert Distinct(ms) ==> ms[0] !in rest;
        DistinctCons(ms[0], rest);
        [ms[0]] + rest
  }

  function DropTenant(ms: seq<Membership>, tenantId: string): (r: seq<Membership>)
    ensures forall m :: m in r <==> m in ms && m.tenantId != tenantId
    ensures Distinct(ms) ==> Distinct(r)
  {
    if ms == [] then []
    else
      var rest := DropTenant(ms[1..], tenantId);
      if ms[0].tenantId == tenantId then rest
      else
        assert Distinct(ms) ==> ms[0] !in rest;
        DistinctCons(ms[0], rest);
        [ms[0]] + rest
  }

  /** The metadata rows not about the user. */
  function MetadataWithoutUser(md: map<MetaKey, Record>, userId: string): (r: map<MetaKey, Record>)
    ensures forall k :: k in r <==> k in md && k.userId != userId
    ensures forall k :: k in r ==> r[k] == md[k]
  {
    map k | k in md && k.userId != userId :: md[k]
  }

  /** The metadata rows not about the tenant. */
  function MetadataWithoutTenant(md: map<MetaKey, Record>, tenantId: string): (r: map<MetaKey, Record>)
    ensures forall k :: k in r <==> k in md && k.tenantId != tenantId
    ensures forall k :: k in r ==> r[k] == md[k]
  {
    map k | k in md && k.tenantId != tenantId :: md[k]
  }

  /** The tables after delete_user of an existing user. */
  function WithoutUser(st: Store, userId: string): (next: Store)
    requires userId in st.users
    ensures StoreValid(st) ==> StoreValid(next)
    ensures userId !in next.users && next.users.Keys == st.users.Keys - {userId}
    ensures forall m :: m in next.members ==> m.userId != userId
    ensures forall k :: k in next.metadata ==> k.userId != userId
  {
    st.(users := st.users - {userId}, userOrder := Remove(st.userOrder, userId),
        members := DropUser(st.members, userId), metadata := MetadataWithoutUser(st.metadata, userId))
  }

  /** The tables after delete_tenant of an existing tenant. */
  function WithoutTenant(st: Store, tenantId: string): (next: Store)
    requires tenantId in st.tenants
    ensures StoreValid(st) ==> StoreValid(next)
    ensures tenantId !in next.tenants && next.tenants.Keys == st.tenants.Keys - {tenantId}
    ensures forall m :: m in next.members ==> m.tenantId != tenantId
    ensures forall k :: k in next.metadata ==> k.tenantId != tenantId
  {
    st.(tenants := st.tenants - {tenantId}, tenantOrder := Remove(st.tenantOrder, tenantId),
        members := DropTenant(st.members, tenantId), metadata := MetadataWithoutTenant(st.metadata, tenantId))
  }

  /** The one-row update of update_user and update_tenant: the old dictionary overlaid with the changes. */
  function Updated(prior: Row, changes: Record): (row: Row)
    ensures row.id == prior.id
  {
    var merged := RowToDict(prior) + changes;
    Row(prior.id, Column(merged, "name"), ExtraOf(merged, RowAttributes))
  }

  /**
   * The updated row takes its name from the changes when they have one, and
   * its extra columns from the changes over the old extras.
   */
  lemma UpdatedColumns(prior: Row, changes: Record)
    ensures var row := Updated(prior, changes);
      && row.name == (if "name" in changes then changes["name"] else prior.name)
      && (forall k :: k in changes && k !in RowAttributes && k != "extra" ==> k in row.extra && row.extra[k] == changes[k])
      && (forall k :: k in prior.extra && k !in changes && k !in RowAttributes ==> k in row.extra && row.extra[k] == prior.extra[k])
      && (forall k :: k in row.extra ==> k in changes || k in prior.extra)
  {
  }

  /** The ref with its "name" cleaned when it has one (update_user, update_tenant). */
  function CleanName(clean: Value -> Result<Value, Error>, ref: Record): (r: Result<Record, Error>)
    ensures "name" !in ref ==> r == Success(ref)
    ensures "name" in ref ==> (r.Success? <==> clean(ref["name"]).Success?)
    ensures "name" in ref && r.Failure? ==> r.error == clean(ref["name"]).error
    ensures r.Success? ==> r.value.Keys == ref.Keys && forall k :: k in ref && k != "name" ==> r.value[k] == ref[k]
    ensures r.Success? && "name" in ref ==> r.value["name"] == clean(ref["name"]).value
  {
    if "name" !in ref then Success(ref)
    else
      var c :- clean(ref["name"]);
      Success(ref["name" := c])
  }

  /**
   * The row create_user stores: the cleaned name, the hashed password, and
   * every other supplied key in extra.
   */
  function NewUser(hooks: Hooks, user: Record): (row: Row)
    requires "id" in user && user["id"].VStr? && "name" in user && hooks.cleanUserName(user["name"]).Success?
    ensures VStr(row.id) == user["id"] && row.name == hooks.cleanUserName(user["name"]).value
    ensures forall k :: k in user && k !in RowAttributes && k != "extra" && k != "password" ==> k in row.extra && row.extra[k] == user[k]
    ensures "password" in user ==> "password" in row.extra && row.extra["password"] == hooks.hashPassword(user["password"])
    ensures forall k :: k in row.extra ==> k in user
  {
    RowFromDict(HashUserPassword(hooks, user["name" := hooks.cleanUserName(user["name"]).value]))
  }

  /** The row create_tenant stores: the cleaned name and every other supplied key in extra. */
  function NewTenant(hooks: Hooks, tenant: Record): (row: Row)
    requires "id" in tenant && tenant["id"].VStr? && "name" in tenant && hooks.cleanTenantName(tenant["name"]).Success?
    ensures VStr(row.id) == tenant["id"] && row.name == hooks.cleanTenantName(tenant["name"]).value
    ensures forall k :: k in tenant && k !in RowAttributes && k != "extra" ==> k in row.extra && row.extra[k] == tenant[k]
    ensures forall k :: k in row.extra ==> k in tenant
  {
    RowFromDict(tenant["name" := hooks.cleanTenantName(tenant["name"]).value])
  }

  /** An insert of this row breaks the primary key, the NOT NULL or the unique constraint. */
  predicate InsertClash(rows: map<string, Row>, row: Row)
  {
    row.id in rows || row.name == VNone || NameTaken(rows, row.name, row.id)
  }

  /** A new name for an existing row breaks the NOT NULL or the unique constraint. */
  predicate RenameClash(rows: map<string, Row>, row: Row)
  {
    row.name == VNone || NameTaken(rows, row.name, row.id)
  }

  /** What update_user hands back: the updated row with its extra dictionary, both without secrets. */
  lemma UpdatedUserView(row: Row)
    ensures IdentityCore.FilterUser(RowToDictWithExtra(row)).Success?
    ensures var v := IdentityCore.FilterUser(RowToDictWithExtra(row)).value;
      && IdentityCore.NoSecrets(v)
      && v["extra"] == VDict(row.extra - IdentityCore.Secrets)
      && v - {"extra"} == StripUser(row)
  {
    var d := RowToDictWithExtra(row);
    var v := IdentityCore.FilterUser(d).value;
    assert v.Keys == d.Keys - IdentityCore.Secrets;
    assert (v - {"extra"}).Keys == StripUser(row).Keys;
  }

  /** A row passes the insert checks exactly when storing it keeps the table's constraints. */
  lemma InsertKeepsConstraints(rows: map<string, Row>, row: Row)
    requires KeyedRows(rows) && UniqueNames(rows)
    ensures !InsertClash(rows, row) <==>
      row.id !in rows && KeyedRows(rows[row.id := row]) && UniqueNames(rows[row.id := row])
  {
    if row.id !in rows && KeyedRows(rows[row.id := row]) && UniqueNames(rows[row.id := row]) {
      NewNameIsFree(rows, row);
    }
    if !InsertClash(rows, row) {
      KeepsUniqueNames(rows, row);
      KeepsKeyedRows(rows, row);
    }
  }

  lemma KeepsKeyedRows(rows: map<string, Row>, row: Row)
    requires KeyedRows(rows) && row.name != VNone
    ensures KeyedRows(rows[row.id := row])
  {
    var m := rows[row.id := row];
    forall id | id in m ensures m[id].id == id && m[id].name != VNone {
      if id != row.id {
        assert m[id] == rows[id];
      }
    }
  }

  /** Under its own id, a row whose name no other row carries keeps the names unique. */
  lemma KeepsUniqueNames(rows: map<string, Row>, row: Row)
    requires UniqueNames(rows) && !NameTaken(rows, row.name, row.id)
    ensures UniqueNames(rows[row.id := row])
  {
  }

  /** A table with unique names after storing the row had no other row of that name. */
  lemma NewNameIsFree(rows: map<string, Row>, row: Row)
    requires UniqueNames(rows[row.id := row])
    ensures !NameTaken(rows, row.name, row.id)
    ensures KeyedRows(rows[row.id := row]) ==> row.name != VNone
  {
    var m := rows[row.id := row];
    assert m[row.id] == row;
    forall other | other in rows && other != row.id ensures rows[other].name != row.name {
      assert m[other] == rows[other];
    }
  }

  /** A rename passes the checks exactly when the renamed table keeps its constraints. */
  lemma RenameKeepsConstraints(rows: map<string, Row>, row: Row)
    requires KeyedRows(rows) && UniqueNames(rows) && row.id in rows
    ensures !RenameClash(rows, row) <==> KeyedRows(rows[row.id := row]) && UniqueNames(rows[row.id := row])
  {
    if KeyedRows(rows[row.id := row]) && UniqueNames(rows[row.id := row]) {
      NewNameIsFree(rows, row);
    }
    if !RenameClash(rows, row) {
      KeepsUniqueNames(rows, row);
      KeepsKeyedRows(rows, row);
    }
  }

  /** An insert that passes the checks keeps the whole store valid. */
  lemma InsertTenantKeepsStore(st: Store, row: Row)
    requires StoreValid(st) && !InsertClash(st.tenants, row)
    ensures StoreValid(st.(tenants := st.tenants[row.id := row], tenantOrder := st.tenantOrder + [row.id]))
  {
    InsertKeepsConstraints(st.tenants, row);
    EnumeratesAppend(st.tenantOrder, st.tenants.Keys, row.id);
    assert st.tenants[row.id := row].Keys == st.tenants.Keys + {row.id};
  }

  lemma InsertUserKeepsStore(st: Store, row: Row)
    requires StoreValid(st) && !InsertClash(st.users, row)
    ensures StoreValid(st.(users := st.users[row.id := row], userOrder := st.userOrder + [row.id]))
  {
    InsertKeepsConstraints(st.users, row);
    EnumeratesAppend(st.userOrder, st.users.Keys, row.id);
    assert st.users[row.id := row].Keys == st.users.Keys + {row.id};
  }

  /** A rename that passes the checks keeps the whole store valid. */
  lemma RenameTenantKeepsStore(st: Store, row: Row)
    requires StoreValid(st) && row.id in st.tenants && !RenameClash(st.tenants, row)
    ensures StoreValid(st.(tenants := st.tenants[row.id := row]))
  {
    RenameKeepsConstraints(st.tenants, row);
    assert st.tenants[row.id := row].Keys == st.tenants.Keys;
  }

  lemma RenameUserKeepsStore(st: Store, row: Row)
    requires StoreValid(st) && row.id in st.users && !RenameClash(st.users, row)
    ensures StoreValid(st.(users := st.users[row.id := row]))
  {
    RenameKeepsConstraints(st.users, row);
    assert st.users[row.id := row].Keys == st.users.Keys;
  }

  // ----- the driver --------------------------------------------------------------------

  /** Python's dict copy-and-assign loop, `for k in top: base[k] = top[k]`. */
  method Overlay(base: Record, top: Record) returns (r: Record)
    ensures r == base + top
  {
    r := base;
    var keys := top.Keys;
    while keys != {}
      invariant keys <= top.Keys
      invariant r.Keys == base.Keys + (top.Keys - keys)
      invariant forall k :: k in top && k !in keys ==> r[k] == top[k]
      invariant forall k :: k in base && (k !in top || k in keys) ==> r[k] == base[k]
      decreases |keys|
    {
      var k :| k in keys;
      r := r[k := top[k]];
      keys := keys - {k};
    }
  }

  class SqlIdentity {
    var users: map<string, Row>
    var userOrder: seq<string>
    var tenants: map<string, Row>
    var tenantOrder: seq<string>
    var roles: map<string, Role>
    var roleOrder: seq<string>
    var members: seq<Membership>
    var metadata: map<MetaKey, Record>
    const hooks: Hooks

    function State(): Store
      reads this
    {
      Store(users, userOrder, tenants, tenantOrder, roles, roleOrder, members, metadata)
    }

    predicate Valid()
      reads this
    {
      StoreValid(State())
    }

    /** Empty tables. */
    constructor (hooks: Hooks)
      ensures Valid() && this.hooks == hooks
      ensures State() == Store(map[], [], map[], [], map[], [], [], map[])
    {
      this.hooks := hooks;
      users, userOrder := map[], [];
      tenants, tenantOrder := map[], [];
      roles, roleOrder := map[], [];
      members, metadata := [], map[];
    }

    /** add_user_to_tenant: the tenant and the user must exist; an existing membership is left alone. */
    method AddUserToTenant(tenantId: string, userId: string) returns (r: Outcome<Error>)
      requires Valid()
      modifies this
      ensures Valid()
      ensures tenantId !in old(tenants) ==> r == Fail(TenantNotFound(tenantId)) && State() == old(State())
      ensures tenantId in old(tenants) && userId !in old(users) ==> r == Fail(UserNotFound(userId)) && State() == old(State())
      ensures tenantId in old(tenants) && userId in old(users) ==>
        r == Pass && State() == old(State()).(members := AddOnce(old(members), Membership(userId, tenantId)))
    {
      if tenantId !in tenants {
        return Fail(TenantNotFound(tenantId));
      }
      if userId !in users {
        return Fail(UserNotFound(userId));
      }
      members := AddOnce(members, Membership(userId, tenantId));
      r := Pass;
    }

    /** remove_user_from_tenant: the tenant, the user and the membership must exist. */
    method RemoveUserFromTenant(tenantId: string, userId: string) returns (r: Outcome<Error>)
      requires Valid()
      modifies this
      ensures Valid()
      ensures tenantId !in old(tenants) ==> r == Fail(TenantNotFound(tenantId))
      ensures tenantId in old(tenants) && userId !in old(users) ==> r == Fail(UserNotFound(userId))
      ensures tenantId in old(tenants) && userId in old(users) && Membership(userId, tenantId) !in old(members) ==>
        r == Fail(NotFound("User not found in tenant"))
      ensures tenantId in old(tenants) && userId in old(users) && Membership(userId, tenantId) in old(members) ==> r == Pass
      ensures r.Fail? ==> State() == old(State())
      ensures r.Pass? ==> (Membership(userId, tenantId) in old(members) &&
                           State() == old(State()).(members := Remove(old(members), Membership(userId, tenantId))))
    {
      if tenantId !in tenants {
        return Fail(TenantNotFound(tenantId));
      }
      if userId !in users {
        return Fail(UserNotFound(userId));
      }
      var m := Membership(userId, tenantId);
      if m !in members {
        return Fail(NotFound("User not found in tenant"));
      }
      members := Remove(members, m);
      r := Pass;
    }

    /** create_metadata: a second row for the same key is a conflict. */
    method CreateMetadata(userId: string, tenantId: string, data: Record) returns (r: Result<Record, Error>)
      requires Valid()
      modifies this
      ensures Valid()
      ensures MetaKey(userId, tenantId) in old(metadata) ==> r == Failure(Conflict("metadata")) && State() == old(State())
      ensures MetaKey(userId, tenantId) !in old(metadata) ==>
        r == Success(data) && State() == old(State()).(metadata := old(metadata)[MetaKey(userId, tenantId) := data])
    {
      var key := MetaKey(userId, tenantId);
      if key in metadata {
        return Failure(Conflict("metadata"));
      }
      metadata := metadata[key := data];
      r := Success(data);
    }

    /** update_metadata: the stored data overlaid with the new keys; a missing row fails on its `.data`. */
    method UpdateMetadata(userId: string, tenantId: string, data: Record) returns (r: Result<Record, Error>)
      requires Valid()
      modifies this
      ensures Valid()
      ensures MetaKey(userId, tenantId) !in old(metadata) ==> r == Failure(AttributeError("data")) && State() == old(State())
      ensures MetaKey(userId, tenantId) in old(metadata) ==>
        var merged := old(metadata)[MetaKey(userId, tenantId)] + data;
        r == Success(merged) && State() == old(State()).(metadata := old(metadata)[MetaKey(userId, tenantId) := merged])
    {
      var key := MetaKey(userId, tenantId);
      if key !in metadata {
        return Failure(AttributeError("data"));
      }
      var merged := Overlay(metadata[key], data);
      metadata := metadata[key := merged];
      r := Success(merged);
    }

    /** delete_metadata as written: it calls a `db` attribute this driver does not have. */
    method DeleteMetadataAsWritten(userId: string, tenantId: string) returns (r: Outcome<Error>)
      ensures r == Fail(AttributeError("db"))
    {
      r := Fail(AttributeError("db"));
    }

    /** delete_metadata as intended: the (user, tenant) row is gone afterwards. */
    method DeleteMetadata(userId: string, tenantId: string) returns (r: Outcome<Error>)
      requires Valid()
      modifies this
      ensures Valid()
      ensures r == Pass && State() == old(State()).(metadata := old(metadata) - {MetaKey(userId, tenantId)})
    {
      metadata := metadata - {MetaKey(userId, tenantId)};
      r := Pass;
    }

    /**
     * add_role_to_user_and_tenant: user, tenant and role must exist and the
     * role must not be granted yet; the metadata row is created or its
     * "roles" list rewritten as the old set plus the role.
     */
    method AddRoleToUserAndTenant(userId: string, tenantId: string, roleId: string) returns (r: Outcome<Error>)
      requires Valid()
      modifies this
      ensures Valid()
      ensures userId !in old(users) ==> r == Fail(UserNotFound(userId))
      ensures userId in old(users) && tenantId !in old(tenants) ==> r == Fail(TenantNotFound(tenantId))
      ensures userId in old(users) && tenantId in old(tenants) && roleId !in old(roles) ==> r == Fail(RoleNotFound(roleId))
      ensures userId in old(users) && tenantId in old(tenants) && roleId in old(roles) ==>
        var before := RoleSet(MetaOf(old(metadata), MetaKey(userId, tenantId)));
        && (before.Failure? ==> r == Fail(TypeError))
        && (before.Success? && VStr(roleId) in before.value ==> r == Fail(Conflict("role grant")))
        && (before.Success? && VStr(roleId) !in before.value ==> r == Pass)
      ensures r.Fail? ==> State() == old(State())
      ensures r.Pass? ==>
        var key := MetaKey(userId, tenantId);
        var before := MetaOf(old(metadata), key);
        && RoleSet(before).Success?
        && key in metadata
        && RolesWritten(before, metadata[key], RoleSet(before).value + {VStr(roleId)})
        && State() == old(State()).(metadata := old(metadata)[key := metadata[key]])
    {
      if userId !in users {
        return Fail(UserNotFound(userId));
      }
      if tenantId !in tenants {
        return Fail(TenantNotFound(tenantId));
      }
      if roleId !in roles {
        return Fail(RoleNotFound(roleId));
      }
      var key := MetaKey(userId, tenantId);
      var isNew := key !in metadata;
      var meta := MetaOf(metadata, key);
      var current := RoleSet(meta);
      if current.Failure? {
        return Fail(current.error);
      }
      if VStr(roleId) in current.value {
        return Fail(Conflict("role grant"));
      }
      var list := ListOfSet(current.value + {VStr(roleId)});
      var updated := meta["roles" := VList(list)];
      assert RolesWritten(meta, updated, current.value + {VStr(roleId)});
      if isNew {
        var written := CreateMetadata(userId, tenantId, updated);
      } else {
        var written := UpdateMetadata(userId, tenantId, updated);
        assert meta + updated == updated;
      }
      r := Pass;
    }

    /**
     * remove_role_from_user_and_tenant: the role must be in the row's role
     * set (which needs no user, tenant or role row); the "roles" list is
     * rewritten without it.
     */
    method RemoveRoleFromUserAndTenant(userId: string, tenantId: string, roleId: string) returns (r: Outcome<Error>)
      requires Valid()
      modifies this
      ensures Valid()
      ensures
        var before := RoleSet(MetaOf(old(metadata), MetaKey(userId, tenantId)));
        && (before.Failure? ==> r == Fail(TypeError))
        && (before.Success? && VStr(roleId) !in before.value ==> r == Fail(RoleNotFound(roleId)))
        && (before.Success? && VStr(roleId) in before.value ==> r == Pass)
      ensures r.Fail? ==> State() == old(State())
      ensures r.Pass? ==>
        var key := MetaKey(userId, tenantId);
        && key in metadata
        && Revoked(MetaOf(old(metadata), key), metadata[key], VStr(roleId))
        && State() == old(State()).(metadata := old(metadata)[key := metadata[key]])
    {
      var key := MetaKey(userId, tenantId);
      var meta := MetaOf(metadata, key);
      var current := RoleSet(meta);
      if current.Failure? {
        return Fail(current.error);
      }
      if VStr(roleId) !in current.value {
        return Fail(RoleNotFound(roleId));
      }
      var list := ListOfSet(current.value - {VStr(roleId)});
      var updated := meta["roles" := VList(list)];
      assert RolesWritten(meta, updated, current.value - {VStr(roleId)});
      // A missing row has no roles, so the row exists here and the
      // create_metadata branch of the source is never taken.
      assert key in metadata;
      var written := UpdateMetadata(userId, tenantId, updated);
      assert meta + updated == updated;
      r := Pass;
    }

    /** create_user: the name is required and cleaned, the password hashed; a clash is a conflict. */
    method CreateUser(userId: string, user: Record) returns (r: Result<Record, Error>)
      requires Valid()
      requires "id" in user && user["id"].VStr?
      modifies this
      ensures Valid()
      ensures "name" !in user ==> r == Failure(KeyError("name"))
      ensures "name" in user && hooks.cleanUserName(user["name"]).Failure? ==> r == Failure(hooks.cleanUserName(user["name"]).error)
      ensures r.Failure? ==> State() == old(State())
      ensures "name" in user && hooks.cleanUserName(user["name"]).Success? ==>
        var row := NewUser(hooks, user);
        && (InsertClash(old(users), row) ==> r == Failure(Conflict("user")))
        && (!InsertClash(old(users), row) ==>
              r == Success(StripUser(row)) &&
              State() == old(State()).(users := old(users)[row.id := row], userOrder := old(userOrder) + [row.id]))
    {
      if "name" !in user {
        return Failure(KeyError("name"));
      }
      var cleaned := hooks.cleanUserName(user["name"]);
      if cleaned.Failure? {
        return Failure(cleaned.error);
      }
      var row := NewUser(hooks, user);
      if InsertClash(users, row) {
        return Failure(Conflict("user"));
      }
      ghost var next := State().(users := users[row.id := row], userOrder := userOrder + [row.id]);
      InsertUserKeepsStore(State(), row);
      users := users[row.id := row];
      userOrder := userOrder + [row.id];
      assert State() == next;
      FilterStoredRow(row);
      r := Success(StripUser(row));
    }

    /**
     * update_user: the name, when given, is cleaned; the id may not change;
     * the stored user is overlaid with the (hashed) changes.
     */
    method UpdateUser(userId: string, user: Record) returns (r: Result<Record, Error>)
      requires Valid()
      modifies this
      ensures Valid()
      ensures r.Failure? ==> State() == old(State())
      ensures
        var cleaned := CleanName(hooks.cleanUserName, user);
        var idChanged := "id" in user && !PyEq(VStr(userId), user["id"]);
        && (cleaned.Failure? ==> r == Failure(cleaned.error))
        && (cleaned.Success? && idChanged ==> r == Failure(ValidationError("Cannot change user ID")))
        && (cleaned.Success? && !idChanged && userId !in old(users) ==> r == Failure(UserNotFound(userId)))
        && (cleaned.Success? && !idChanged && userId in old(users) ==>
              var row := Updated(old(users)[userId], HashUserPassword(hooks, cleaned.value));
              && (RenameClash(old(users), row) ==> r == Failure(Conflict("user")))
              && (!RenameClash(old(users), row) ==>
                    r == IdentityCore.FilterUser(RowToDictWithExtra(row)) &&
                    State() == old(State()).(users := old(users)[userId := row])))
    {
      var cleaned := CleanName(hooks.cleanUserName, user);
      if cleaned.Failure? {
        return Failure(cleaned.error);
      }
      if "id" in user && !PyEq(VStr(userId), user["id"]) {
        return Failure(ValidationError("Cannot change user ID"));
      }
      if userId !in users {
        return Failure(UserNotFound(userId));
      }
      var prior := users[userId];
      var changes := HashUserPassword(hooks, cleaned.value);
      var merged := Overlay(RowToDict(prior), changes);
      var row := Row(prior.id, Column(merged, "name"), ExtraOf(merged, RowAttributes));
      assert row == Updated(prior, changes);
      if RenameClash(users, row) {
        return Failure(Conflict("user"));
      }
      ghost var next := State().(users := users[userId := row]);
      RenameUserKeepsStore(State(), row);
      users := users[userId := row];
      assert State() == next;
      r := IdentityCore.FilterUser(RowToDictWithExtra(row));
    }

    /** delete_user: the user's memberships and metadata go with it; a missing user changes nothing. */
    method DeleteUser(userId: string) returns (r: Outcome<Error>)
      requires Valid()
      modifies this
      ensures Valid()
      ensures userId !in old(users) ==> r == Fail(UserNotFound(userId)) && State() == old(State())
      ensures userId in old(users) ==> r == Pass && State() == WithoutUser(old(State()), userId)
    {
      if userId !in users {
        return Fail(UserNotFound(userId));
      }
      var next := WithoutUser(State(), userId);
      members := next.members;
      metadata := next.metadata;
      users := next.users;
      userOrder := next.userOrder;
      r := Pass;
    }

    /** create_tenant: the name is required and cleaned; a clash is a conflict. */
    method CreateTenant(tenantId: string, tenant: Record) returns (r: Result<Record, Error>)
      requires Valid()
      requires "id" in tenant && tenant["id"].VStr?
      modifies this
      ensures Valid()
      ensures "name" !in tenant ==> r == Failure(KeyError("name"))
      ensures "name" in tenant && hooks.cleanTenantName(tenant["name"]).Failure? ==> r == Failure(hooks.cleanTenantName(tenant["name"]).error)
      ensures r.Failure? ==> State() == old(State())
      ensures "name" in tenant && hooks.cleanTenantName(tenant["name"]).Success? ==>
        var row := NewTenant(hooks, tenant);
        && (InsertClash(old(tenants), row) ==> r == Failure(Conflict("tenant")))
        && (!InsertClash(old(tenants), row) ==>
              r == Success(RowToDict(row)) &&
              State() == old(State()).(tenants := old(tenants)[row.id := row], tenantOrder := old(tenantOrder) + [row.id]))
    {
      if "name" !in tenant {
        return Failure(KeyError("name"));
      }
      var cleaned := hooks.cleanTenantName(tenant["name"]);
      if cleaned.Failure? {
        return Failure(cleaned.error);
      }
      var row := NewTenant(hooks, tenant);
      if InsertClash(tenants, row) {
        return Failure(Conflict("tenant"));
      }
      ghost var next := State().(tenants := tenants[row.id := row], tenantOrder := tenantOrder + [row.id]);
      InsertTenantKeepsStore(State(), row);
      tenants := tenants[row.id := row];
      tenantOrder := tenantOrder + [row.id];
      assert State() == next;
      r := Success(RowToDict(row));
    }

    /** update_tenant: the name, when given, is cleaned; the stored tenant is overlaid with the changes. */
    method UpdateTenant(tenantId: string, tenant: Record) returns (r: Result<Record, Error>)
      requires Valid()
      modifies this
      ensures Valid()
      ensures r.Failure? ==> State() == old(State())
      ensures
        var cleaned := CleanName(hooks.cleanTenantName, tenant);
        && (cleaned.Failure? ==> r == Failure(cleaned.error))
        && (cleaned.Success? && tenantId !in old(tenants) ==> r == Failure(TenantNotFound(tenantId)))
        && (cleaned.Success? && tenantId in old(tenants) ==>
              var row := Updated(old(tenants)[tenantId], cleaned.value);
              && (RenameClash(old(tenants), row) ==> r == Failure(Conflict("tenant")))
              && (!RenameClash(old(tenants), row) ==>
                    r == Success(RowToDictWithExtra(row)) &&
                    State() == old(State()).(tenants := old(tenants)[tenantId := row])))
    {
      var cleaned := CleanName(hooks.cleanTenantName, tenant);
      if cleaned.Failure? {
        return Failure(cleaned.error);
      }
      if tenantId !in tenants {
        return Failure(TenantNotFound(tenantId));
      }
      var prior := tenants[tenantId];
      var merged := Overlay(RowToDict(prior), cleaned.value);
      var row := Row(prior.id, Column(merged, "name"), ExtraOf(merged, RowAttributes));
      assert row == Updated(prior, cleaned.value);
      if RenameClash(tenants, row) {
        return Failure(Conflict("tenant"));
      }
      ghost var next := State().(tenants := tenants[tenantId := row]);
      RenameTenantKeepsStore(State(), row);
      tenants := tenants[tenantId := row];
      assert State() == next;
      r := Success(RowToDictWithExtra(row));
    }

    /** delete_tenant: the tenant's memberships and metadata go with it; a missing tenant changes nothing. */
    method DeleteTenant(tenantId: string) returns (r: Outcome<Error>)
      requires Valid()
      modifies this
      ensures Valid()
      ensures tenantId !in old(tenants) ==> r == Fail(TenantNotFound(tenantId)) && State() == old(State())
      ensures tenantId in old(tenants) ==> r == Pass && State() == WithoutTenant(old(State()), tenantId)
    {
      if tenantId !in tenants {
        return Fail(TenantNotFound(tenantId));
      }
      var next := WithoutTenant(State(), tenantId);
      members := next.members;
      metadata := next.metadata;
      tenants := next.tenants;
      tenantOrder := next.tenantOrder;
      r := Pass;
    }

    /** create_role: only id and name are accepted; a clash is a conflict; the ref is returned. */
    method CreateRole(roleId: string, role: Record) returns (r: Result<Record, Error>)
      requires Valid()
      requires "id" in role && role["id"].VStr?
      modifies this
      ensures Valid()
      ensures !(role.Keys <= RowAttributes) ==> r == Failure(TypeError)
      ensures r.Failure? ==> State() == old(State())
      ensures role.Keys <= RowAttributes ==>
        var id := role["id"].s;
        var name := Column(role, "name");
        && (id in old(roles) || name == VNone || RoleNameTaken(old(roles), name) ==> r == Failure(Conflict("role")))
        && (!(id in old(roles) || name == VNone || RoleNameTaken(old(roles), name)) ==>
              r == Success(role) &&
              State() == old(State()).(roles := old(roles)[id := Role(id, name)], roleOrder := old(roleOrder) + [id]))
    {
      if !(role.Keys <= RowAttributes) {
        return Failure(TypeError);
      }
      var id := role["id"].s;
      var name := Column(role, "name");
      if id in roles || name == VNone || RoleNameTaken(roles, name) {
        return Failure(Conflict("role"));
      }
      ghost var next := State().(roles := roles[id := Role(id, name)], roleOrder := roleOrder + [id]);
      roles := roles[id := Role(id, name)];
      roleOrder := roleOrder + [id];
      assert State() == next;
      r := Success(role);
    }

    /**
     * The loop of delete_role: the role is revoked in every metadata row
     * (rows that do not hold it are skipped). A row whose roles cannot form
     * a set stops the loop with a TypeError, leaving the rows done so far.
     */
    method RevokeEverywhere(roleId: string) returns (r: Outcome<Error>)
      requires Valid()
      modifies this
      ensures Valid()
      ensures State() == old(State()).(metadata := metadata)
      ensures metadata.Keys == old(metadata).Keys
      ensures r.Fail? ==> r.error == TypeError
      ensures r.Fail? <==> exists k :: k in old(metadata) && RoleSet(old(metadata)[k]).Failure?
      ensures forall k :: k in metadata ==> metadata[k] == old(metadata)[k] || Revoked(old(metadata)[k], metadata[k], VStr(roleId))
      ensures r.Pass? ==> forall k :: k in metadata ==> Revoked(old(metadata)[k], metadata[k], VStr(roleId))
    {
      var pending := metadata.Keys;
      while pending != {}
        invariant State() == old(State()).(metadata := metadata)
        invariant SweptExcept(old(metadata), metadata, pending, VStr(roleId))
        decreases |pending|
      {
        var k :| k in pending;
        ghost var current := metadata;
        var step := RemoveRoleFromUserAndTenant(k.userId, k.tenantId, roleId);
        if step.Fail? && step.error != RoleNotFound(roleId) {
          return step;
        }
        SweptStep(old(metadata), current, pending, VStr(roleId), k, metadata[k]);
        pending := pending - {k};
      }
      r := Pass;
    }

    /** delete_role: the role is revoked everywhere, then its row is deleted. */
    method DeleteRole(roleId: string) returns (r: Outcome<Error>)
      requires Valid()
      modifies this
      ensures Valid()
      ensures State() == old(State()).(roles := roles, roleOrder := roleOrder, metadata := metadata)
      ensures metadata.Keys == old(metadata).Keys
      ensures forall k :: k in metadata ==> metadata[k] == old(metadata)[k] || Revoked(old(metadata)[k], metadata[k], VStr(roleId))
      ensures r == Fail(TypeError) <==> exists k :: k in old(metadata) && RoleSet(old(metadata)[k]).Failure?
      ensures r != Fail(TypeError) ==> forall k :: k in metadata ==> Revoked(old(metadata)[k], metadata[k], VStr(roleId))
      ensures r != Fail(TypeError) && roleId !in old(roles) ==> r == Fail(RoleNotFound(roleId))
      ensures r.Fail? ==> roles == old(roles) && roleOrder == old(roleOrder)
      ensures r.Pass? ==> roleId in old(roles) && roles == old(roles) - {roleId} && roleOrder == Remove(old(roleOrder), roleId)
    {
      var swept := RevokeEverywhere(roleId);
      if swept.Fail? {
        return swept;
      }
      if roleId !in roles {
        return Fail(RoleNotFound(roleId));
      }
      ghost var next := State().(roles := roles - {roleId}, roleOrder := Remove(roleOrder, roleId));
      roles := roles - {roleId};
      roleOrder := Remove(roleOrder, roleId);
      assert State() == next;
      r := Pass;
    }
  }
}
