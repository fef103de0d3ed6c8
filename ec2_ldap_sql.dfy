/**
 * The federated EC2 credential driver: credentials are looked up in the
 * directory (through a wrapper whose options are the `ec2_*` ones) before
 * the SQL credential table. A directory credential names its owner by DN
 * and, when a default tenant is configured, carries that tenant's id.
 */
module Ec2LdapSql {
  import opened Wrappers
  import opened Values
  import IdentitySql
  import Ldap

  /** The prefix of the EC2 wrapper's options. */
  const OptionsName: string := "ec2"

  /**
   * What the driver consults. The SQL credential driver is not part of this
   * model: its get_credential and list_credentials are parameters.
   */
  datatype Backend = Backend(
    st: IdentitySql.Store,
    directory: Ldap.Directory,
    ec2Ldap: Ldap.Settings,
    conf: Ldap.LdapConf,
    sqlCredential: string -> Result<Option<Record>, Error>,
    sqlCredentials: string -> Result<seq<Record>, Error>)

  /** The truthiness of a dict that may be None: None and {} are falsy. */
  predicate Present(ref: Option<Record>)
  {
    ref.Some? && ref.value != map[]
  }

  /**
   * _filter_cred: "id" is renamed "user_id"; with a (truthy) default tenant,
   * that tenant is looked up by name and its id stored as "tenant_id". A
   * failed lookup propagates; a ref without "id" raises KeyError.
   */
  function FilterCred(st: IdentitySql.Store, defaultTenant: Option<string>, ref: Option<Record>): (r: Result<Option<Record>, Error>)
    ensures !Present(ref) ==> r == Success(ref)
    ensures Present(ref) && "id" !in ref.value ==> r == Failure(KeyError("id"))
    ensures Present(ref) && "id" in ref.value && TruthyStr(defaultTenant) ==>
      (r.Success? <==> IdentitySql.GetTenantByName(st, defaultTenant.value).Success?)
    ensures Present(ref) && "id" in ref.value && TruthyStr(defaultTenant) && r.Failure? ==>
      r == Failure(TenantNotFound(defaultTenant.value))
    ensures Present(ref) && "id" in ref.value && !TruthyStr(defaultTenant) ==> r.Success?
    ensures Present(ref) && r.Success? ==> r.value.Some?
    ensures Present(ref) && r.Success? ==>
      var c := r.value.value;
      && c.Keys == ref.value.Keys - {"id"} + {"user_id"} + (if TruthyStr(defaultTenant) then {"tenant_id"} else {})
      && c["user_id"] == ref.value["id"]
      && (forall k :: k in ref.value && k !in {"id", "user_id", "tenant_id"} ==> c[k] == ref.value[k])
      && (TruthyStr(defaultTenant) ==> c["tenant_id"] == IdentitySql.GetTenantByName(st, defaultTenant.value).value["id"])
      && (!TruthyStr(defaultTenant) && "tenant_id" in ref.value ==> c["tenant_id"] == ref.value["tenant_id"])
  {
    if !Present(ref) then Success(ref)
    else if "id" !in ref.value then Failure(KeyError("id"))
    else
      var cred := (ref.value - {"id"})["user_id" := ref.value["id"]];
      if TruthyStr(defaultTenant) then
        var tenant :- IdentitySql.GetTenantByName(st, defaultTenant.value);
        Success(Some(cred["tenant_id" := tenant["id"]]))
      else Success(Some(cred))
  }

  /** A record the directory produced always has an "id", so filtering it never raises KeyError. */
  lemma FilterDirectoryRecord(st: IdentitySql.Store, defaultTenant: Option<string>, s: Ldap.Settings, dn: string, attrs: Ldap.Attrs)
    requires !TruthyStr(defaultTenant) || IdentitySql.GetTenantByName(st, defaultTenant.value).Success?
    requires "id" !in s.mapping || s.mapping["id"] !in attrs
    ensures FilterCred(st, defaultTenant, Some(Ldap.EntryRecord(s.mapping, dn, attrs))).Success?
    ensures FilterCred(st, defaultTenant, Some(Ldap.EntryRecord(s.mapping, dn, attrs))).value.Some?
    ensures FilterCred(st, defaultTenant, Some(Ldap.EntryRecord(s.mapping, dn, attrs))).value.value["user_id"] == VStr(dn)
  {
    var rec := Ldap.EntryRecord(s.mapping, dn, attrs);
    assert "id" in rec;
  }

  /** EC2Ldap.get_by_name: the wrapper's name lookup, filtered. */
  function GetByName(b: Backend, credId: string): (r: Result<Option<Record>, Error>)
    ensures Ldap.GetByName(b.ec2Ldap, b.directory, credId).Failure? ==> r == Failure(Ldap.GetByName(b.ec2Ldap, b.directory, credId).error)
    ensures Ldap.GetByName(b.ec2Ldap, b.directory, credId).Success? ==>
      r == FilterCred(b.st, b.conf.defaultTenant, Ldap.GetByName(b.ec2Ldap, b.directory, credId).value)
  {
    var found :- Ldap.GetByName(b.ec2Ldap, b.directory, credId);
    FilterCred(b.st, b.conf.defaultTenant, found)
  }

  /** EC2Ldap.get_by_dn: the wrapper's DN lookup, filtered. */
  function GetByDn(b: Backend, dn: string): (r: Result<Option<Record>, Error>)
    ensures Ldap.GetByDn(b.ec2Ldap, b.directory, dn).Failure? ==> r == Failure(Ldap.GetByDn(b.ec2Ldap, b.directory, dn).error)
    ensures Ldap.GetByDn(b.ec2Ldap, b.directory, dn).Success? ==>
      r == FilterCred(b.st, b.conf.defaultTenant, Ldap.GetByDn(b.ec2Ldap, b.directory, dn).value)
  {
    var found :- Ldap.GetByDn(b.ec2Ldap, b.directory, dn);
    FilterCred(b.st, b.conf.defaultTenant, found)
  }

  /**
   * get_credential: the directory's credential of that name when there is
   * one; the SQL driver's otherwise.
   */
  function GetCredential(b: Backend, credId: string): (r: Result<Option<Record>, Error>)
    ensures GetByName(b, credId).Success? && Present(GetByName(b, credId).value) ==> r == GetByName(b, credId)
    ensures GetByName(b, credId).Success? && !Present(GetByName(b, credId).value) ==> r == b.sqlCredential(credId)
    ensures GetByName(b, credId).Failure? ==> r == GetByName(b, credId)
  {
    var fromDirectory :- GetByName(b, credId);
    if Present(fromDirectory) then Success(fromDirectory) else b.sqlCredential(credId)
  }

  /** Without a service connection the directory knows nothing, and SQL answers. */
  lemma GetCredentialWithoutDirectory(b: Backend, credId: string)
    requires Ldap.ServiceConnection(b.ec2Ldap, b.directory).None?
    ensures GetCredential(b, credId) == b.sqlCredential(credId)
  {
  }

  /**
   * list_credentials: an id that is not a DN goes to SQL; a DN has at most
   * its one directory credential.
   */
  function ListCredentials(b: Backend, userId: string): (r: Result<seq<Record>, Error>)
    ensures !Ldap.ValidDn(b.directory, userId) ==> r == b.sqlCredentials(userId)
    ensures Ldap.ValidDn(b.directory, userId) && r.Success? ==>
      |r.value| <= 1 && GetByDn(b, userId).Success?
      && (r.value == [] <==> !Present(GetByDn(b, userId).value))
      && (r.value != [] ==> Some(r.value[0]) == GetByDn(b, userId).value)
    ensures Ldap.ValidDn(b.directory, userId) ==> (r.Failure? <==> GetByDn(b, userId).Failure?)
  {
    if !Ldap.ValidDn(b.directory, userId) then b.sqlCredentials(userId)
    else
      var cred :- GetByDn(b, userId);
      if !Present(cred) then Success([]) else Success([cred.value])
  }

  /**
   * A directory user's credential list is its own entry, owned by it: the
   * one credential's user_id is the DN itself.
   */
  lemma ListCredentialsOfDirectoryUser(b: Backend, dn: string)
    requires b.directory.reachable && Ldap.ValidDn(b.directory, dn) && dn in b.directory.entries
    requires b.directory.binds(Ldap.OptStr(b.ec2Ldap.user), Ldap.OptStr(b.ec2Ldap.password)) || b.directory.anonymousSearch
    requires "id" !in b.ec2Ldap.mapping
    requires !TruthyStr(b.conf.defaultTenant) || IdentitySql.GetTenantByName(b.st, b.conf.defaultTenant.value).Success?
    ensures ListCredentials(b, dn).Success? && |ListCredentials(b, dn).value| == 1
    ensures ListCredentials(b, dn).value[0]["user_id"] == VStr(dn)
  {
    Ldap.GetByDnFinds(b.ec2Ldap, b.directory, dn);
    FilterDirectoryRecord(b.st, b.conf.defaultTenant, b.ec2Ldap, dn, b.directory.entries[dn]);
  }
}
