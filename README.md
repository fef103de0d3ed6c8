# Keystone identity, catalog and LDAP federation — a Dafny model

This project models the core of an early OpenStack Keystone tree:

- **Service catalog.** The SQL catalog driver stores services and endpoints and assembles the per-user catalog. Every endpoint URL goes through `format_url`, which rewrites `$(` to `%(` and then applies Python `%`-interpolation with the template variables.
- **SQL identity driver.** It holds tables for users, tenants, roles, per-(user, tenant) metadata and tenant memberships. It covers authentication, lookups by id and by name, role grants and revocations, and the create/update/delete operations. The unique and primary-key constraints are invariants of the store.
- **Identity core and controller helpers.**
  - `filter_user` strips secrets.
  - `_format_tenant_list` paginates by marker and limit and defaults `enabled`.
  - The role controller grants and revokes a role on a (user, tenant) pair.
  - `_require_domain_or_project` accepts exactly one of a domain and a project.
  - The v3 controller helpers are `_paginate`, `_require_attribute`, `_require_matching_id`, `_assign_unique_id` and `_filter_by_attribute`.
- **LDAP wrapper.**
  - `ldap2py` decodes attribute values.
  - The constructor reads the `[ldap]` options, including the class-level attribute mapping that every wrapper shares.
  - It also covers connections, turning search results into dicts, object and name filters (with escaping per section 3 of RFC 4515), and lookups by DN and by name.
  - `authenticate` binds as the user.
- **Federated drivers.**
  - The LDAP+SQL identity driver sends DN-shaped ids to the directory and everything else to SQL. Directory users get the default tenant and the default roles.
  - The LDAP+SQL EC2 credential driver looks in the directory before SQL and rewrites `id` to `user_id` and `tenant_id`.

The directory server is a value (`Ldap.Directory`). It records:

- whether `ldap.initialize` accepts the configured URL (`reachable`);
- which credentials bind;
- whether anonymous search is allowed;
- which strings are DNs;
- the subtree relation;
- which filter strings match an entry;
- the entries themselves, in server order.

Configuration (`CONF`, `CONF.ldap`), fresh uuids, password hashing and checking, and name cleaning are parameters.

Python dicts are `Values.Record = map<string, Value>`, where `Value` is None, bool, int, str, list or dict. A raised exception is the `Failure` of a `Result` or the `Fail` of an `Outcome`. Each table is a map keyed by primary key plus a sequence that gives the query order.

Behaviour worth noting:

- **URL templates.** Placeholders are written `$(key)s` or `%(key)s`. A brace template such as `{tenant_id}` is plain text to `format_url` and comes back unchanged (`FormatUrl.PlainUrlUnchanged`).
- **Missing endpoint URLs.**
  - A missing `publicurl` becomes `""`.
  - A missing `internalurl` or `adminurl` becomes `None`, not an empty string (`CatalogSql.EntryWithoutUrls`).
- **No default tenant.** When the default tenant does not exist, a directory user's `get_tenants_for_user` raises TenantNotFound, because `get_tenant_by_name` raises; its `if tenant:` fallback is never reached (`LdapSql.GetTenantsForUser`).
- **EC2's `_filter_cred`.** It raises TenantNotFound when the configured default tenant is missing (`Ec2LdapSql.FilterCred`).
- **Duplicate catalog ids.** Creating a service or endpoint with an existing id raises the database's IntegrityError: the catalog driver has no `handle_conflicts` decorator, so no Conflict is raised.
- **Directory users with no tenant.** A directory user who names no tenant is refused, because `get_tenant(None)` raises (`LdapSql.UnscopedDirectoryLoginFails`).

## Model

| member | source | states |
|---|---|---|
| Values.DictGet | keystone/identity/backends/sql.py:265 | `dict.get`: the stored value when the key is present, the default otherwise |
| Values.PyEqStr | keystone/common/controller.py:31 | Python `==` against a string holds exactly for that same string, in both argument orders |
| Values.PyEqReflexive | keystone/common/controller.py:31 | Python `==` is reflexive on every modelled value, nested lists and dicts included |
| Values.PyEq | keystone/common/controller.py:31 | no contract; Python `==` on the modelled values, defined by its body; PyEqStr and PyEqReflexive state its behaviour |
| Values.ParseIntOfIntToString | keystone/common/ldap/wrapper.py:36-39 | `int(str(i)) == i` for every integer: the decimal text of a number parses back to it |
| Values.ParseIntOfNat | keystone/common/ldap/wrapper.py:36-39 | the digits of a natural number parse to that number |
| Values.ParseIntOfNegatedNat | keystone/common/ldap/wrapper.py:36-39 | `"-" + digits` parses to the negated number |
| Values.ParseIntOfDigits | keystone/common/ldap/wrapper.py:36-39 | any non-empty run of decimal digits (leading zeros allowed) parses to its decimal value |
| Values.ParseIntOfNegativeDigits | keystone/common/ldap/wrapper.py:36-39 | a minus sign before a digit run parses to the negated decimal value |
| Values.ParseIntNeedsDigit | keystone/common/ldap/wrapper.py:36-39 | a string with no digit at all is refused by `int()` (ValueError) |
| Values.ParseInt | keystone/common/ldap/wrapper.py:36-39 | no contract; Python 2 `int()` of a string, defined by its body; the ParseInt lemmas above state what it accepts and returns |
| Collections.ListOfSet | keystone/identity/backends/sql.py:283 | `list(roles)`: the result lists every element of the set exactly once and nothing else |
| Collections.EnumeratesLength | keystone/identity/backends/sql.py:283 | a duplicate-free listing of a set is as long as the set |
| Collections.Filter | keystone/identity/backends/sql.py:345-350 | the kept rows are exactly the rows that satisfy the condition; never longer than the input |
| Collections.Remove | keystone/identity/backends/sql.py:242 | the result holds exactly the other elements; it is duplicate-free when the input was |
| Collections.AddOnce | keystone/identity/backends/sql.py:219-229 | the element is present afterwards; an existing element leaves the list unchanged, a new one is appended; distinctness is kept |
| Collections.PySlice | keystone/identity/core.py:599 | Python slicing with optional and negative bounds never yields more elements than the list has |
| Collections.PySliceNonNegative | keystone/identity/core.py:599 | with non-negative bounds the slice has the clamped length and its i-th element is element start+i |
| SqlRows.ExtraOf | keystone/identity/backends/sql.py:40-53 | `from_dict`'s extra bag holds exactly the keys that are neither columns nor "extra", with their values |
| SqlRows.ToDict | keystone/identity/backends/sql.py:40-53 | `to_dict` has the columns' keys and the extra's keys; columns win over extra |
| SqlRows.RowRoundTrip | keystone/catalog/backends/sql.py:29-45 | `to_dict(from_dict(ref)) == ref` for every ref that has all the columns and no "extra" key |
| FormatUrl.ReplaceDollar | keystone/catalog/core.py:40 | `url.replace('$(', '%(')` keeps the length |
| FormatUrl.ReplaceDollarLeavesNone | keystone/catalog/core.py:40 | after the replace no `$(` remains anywhere in the text |
| FormatUrl.ReplaceDollarKeeps | keystone/catalog/core.py:40 | the replace changes no character other than a `$` |
| FormatUrl.ReplaceDollarIdentity | keystone/catalog/core.py:40 | a text without `$(` is left unchanged |
| FormatUrl.ReplaceDollarIdempotent | keystone/catalog/core.py:40 | replacing twice is replacing once |
| FormatUrl.ReplaceDollarAppend | keystone/catalog/core.py:40 | the replace distributes over concatenation unless the seam joins a `$` with a `(` |
| FormatUrl.KeyLength | keystone/catalog/core.py:40 | the key of a `%(` directive ends at the `)` that closes it (nested parentheses counted) |
| FormatUrl.KeyLengthPlain | keystone/catalog/core.py:40 | a key without parentheses ends at the first `)` |
| FormatUrl.KeyLengthNone | keystone/catalog/core.py:52-55 | an unclosed key is found to have no end (the ValueError path) |
| FormatUrl.FormatNoTemplate | keystone/catalog/core.py:41-42 | a URL that is not a string (missing, None) gives None, and only such a URL does |
| FormatUrl.InterpHole | keystone/catalog/core.py:40-51 | one `%(key)c` directive: a missing key is Malformed (KeyError); `%s` renders the value as text; `%d`/`%i` renders a number and rejects anything else (TypeError) |
| FormatUrl.InterpPlain | keystone/catalog/core.py:40 | literal text without `%` is copied to the output unchanged |
| FormatUrl.InterpRendered | keystone/catalog/core.py:40-55 | interpolating a well-formed template followed by any tail is the template's fill followed by the tail's result, and the first failure wins |
| FormatUrl.ReplaceDollarRender | keystone/catalog/core.py:40 | a template written with `$(` placeholders becomes, after the replace, the same template written with `%(` |
| FormatUrl.ReplaceDollarIdentityRendered | keystone/catalog/core.py:40 | a template already written with `%(` is unchanged by the replace |
| FormatUrl.FormatTemplate | keystone/catalog/core.py:37-56 | substitution theorem: a well-formed template in either `$(` or `%(` spelling yields each literal and each key's rendered value in order; it fails as Malformed at the first missing key or non-number `%d` |
| FormatUrl.DollarEquivalent | keystone/catalog/core.py:40 | formatting a URL and formatting its `$(`-to-`%(` rewrite give the same result |
| FormatUrl.PlainUrlUnchanged | keystone/catalog/core.py:37-56 | a URL with no `%` and no `$(` (a lone `$`, or a brace template such as `{tenant_id}`) comes back unchanged, whatever the data |
| FormatUrl.InterpNoPercent | keystone/catalog/core.py:40 | text without `%` interpolates to itself |
| FormatUrl.TrailingPercent | keystone/catalog/core.py:52-55 | a well-formed template that ends in a lone `%` is Malformed (incomplete format) |
| FormatUrl.RenderLastNotDollar | keystone/catalog/core.py:40 | a rendered `$` template never ends in `$`, so appending to it does not create a new `$(` |
| FormatUrl.UnterminatedKey | keystone/catalog/core.py:52-55 | `$(key` with no closing parenthesis is Malformed |
| FormatUrl.KeyWithoutConversion | keystone/catalog/core.py:40-55 | `$(key)` with nothing after the `)` is Malformed, whether or not the key is in the data |
| FormatUrl.Interp | keystone/catalog/core.py:40 | no contract; Python `template % data` over the supported directives, defined by its body; InterpHole, InterpPlain and InterpRendered state its behaviour |
| FormatUrl.Format | keystone/catalog/core.py:37-56 | no contract; format_url defined by its body; FormatNoTemplate, FormatTemplate, DollarEquivalent and the lemmas after it state its behaviour |
| CatalogSql.ServiceToDict | keystone/catalog/backends/sql.py:29-35 | a service row's dict carries its id and type |
| CatalogSql.EndpointToDict | keystone/catalog/backends/sql.py:37-45 | an endpoint row's dict carries its id, region and service_id |
| CatalogSql.ServiceRoundTrip | keystone/catalog/backends/sql.py:73-79 | a created service's `to_dict` is exactly the ref it was created from |
| CatalogSql.EndpointRoundTrip | keystone/catalog/backends/sql.py:82-89 | a created endpoint's `to_dict` is exactly the ref it was created from |
| CatalogSql.TemplateVars | keystone/catalog/backends/sql.py:112-114 | the template variables are the configuration's keys plus tenant_id and user_id; the two ids override configuration entries of the same name |
| CatalogSql.UrlField | keystone/catalog/backends/sql.py:133-135 | a URL field is None exactly when the stored template is not a string; a malformed template's error names that template |
| CatalogSql.Put | keystone/catalog/backends/sql.py:125-132 | `catalog[region][type] = desc` installs the descriptor, keeps every other (region, type) slot and loses none |
| CatalogSql.Entries | keystone/catalog/backends/sql.py:117-118 | one entry (or error) per listed endpoint, in listing order |
| CatalogSql.AssembleFirst | keystone/catalog/backends/sql.py:119-135 | one loop step: a failing endpoint stops the build with its error, otherwise its descriptor is written and the loop goes on |
| CatalogSql.AssembleIsFold | keystone/catalog/backends/sql.py:117-137 | the catalog loop equals a fold of the per-endpoint entries over the growing catalog |
| CatalogSql.Assemble | keystone/catalog/backends/sql.py:117-137 | no contract; the catalog from the listed endpoints, defined by its body; AssembleIsFold, AssembleLastWriteWins, AssembleFailsAtFirstError and AssembleNoDanglingService state its behaviour |
| CatalogSql.FoldLastWriteWins | keystone/catalog/backends/sql.py:125-132 | in the folded catalog each (region, type) holds the last entry written to it, or its earlier content if none was |
| CatalogSql.AssembleLastWriteWins | keystone/catalog/backends/sql.py:119-135 | last write wins: of two endpoints sharing region and service type, the one later in listing order appears in the catalog |
| CatalogSql.FoldFailsAtFirstError | keystone/catalog/backends/sql.py:119-135 | the fold fails if and only if some entry fails, and then with the first failing entry's error |
| CatalogSql.AssembleFailsAtFirstError | keystone/catalog/backends/sql.py:119-135 | building the catalog fails if and only if some endpoint's entry fails, and it reports the first such endpoint's error |
| CatalogSql.EntryOfStoredService | keystone/catalog/backends/sql.py:120 | an endpoint whose service exists never fails with ServiceNotFound |
| CatalogSql.AssembleNoDanglingService | keystone/catalog/backends/sql.py:117-137 | when every endpoint's service exists the catalog build never fails with ServiceNotFound |
| CatalogSql.EntryWithoutUrls | keystone/catalog/backends/sql.py:131-135 | an endpoint with no stored URLs gets publicURL "" and internalURL/adminURL None, under the service's name and type |
| CatalogSql.EndpointsNotOf | keystone/catalog/backends/sql.py:68 | the surviving endpoints are exactly those of other services, unchanged |
| CatalogSql.OrderNotOf | keystone/catalog/backends/sql.py:68 | the listing order keeps exactly the surviving endpoints and stays duplicate-free |
| CatalogSql.Catalog.constructor | keystone/catalog/backends/sql.py:48 | a new catalog has no services and no endpoints |
| CatalogSql.Catalog.ListServices | keystone/catalog/backends/sql.py:53-56 | the listing has each service id exactly once and nothing else |
| CatalogSql.Catalog.ListEndpoints | keystone/catalog/backends/sql.py:106-109 | the listing has each endpoint id exactly once and nothing else |
| CatalogSql.Catalog.GetService | keystone/catalog/backends/sql.py:58-63 | found if and only if stored, as its dict; otherwise ServiceNotFound for that id |
| CatalogSql.Catalog.GetEndpoint | keystone/catalog/backends/sql.py:98-104 | found if and only if stored, as its dict; otherwise EndpointNotFound for that id |
| CatalogSql.Catalog.CreateService | keystone/catalog/backends/sql.py:73-79 | a duplicate id is an IntegrityError and nothing changes; otherwise the service is added at the end of the order, nothing else changes, and `get_service` then returns what was returned |
| CatalogSql.Catalog.DeleteService | keystone/catalog/backends/sql.py:65-71 | a missing service is ServiceNotFound and nothing changes (the cascade is rolled back); otherwise the service and exactly its endpoints are gone |
| CatalogSql.Catalog.CreateEndpoint | keystone/catalog/backends/sql.py:82-89 | a ref without service_id is a KeyError, an unknown service ServiceNotFound, a duplicate id IntegrityError, each with no write; otherwise the endpoint is appended and nothing else changes |
| CatalogSql.Catalog.DeleteEndpoint | keystone/catalog/backends/sql.py:91-96 | a missing endpoint is EndpointNotFound and nothing changes; otherwise just that endpoint is gone |
| CatalogSql.Catalog.GetCatalog | keystone/catalog/backends/sql.py:111-137 | the catalog is the fold over the endpoints in listing order with the template variables, and never fails with ServiceNotFound (the delete cascade leaves no dangling endpoint) |
| IdentityCore.FilterUser | keystone/identity/core.py:38-53 | an empty ref is returned as is; otherwise password and tenants are gone from the user and from its extra dict and every other key is kept; an "extra" that is not a dict fails the `.pop` |
| IdentityCore.CallerAfterFilter | keystone/identity/core.py:45-50 | the caller's dict after `filter_user` keeps all its top-level keys and values (the copy is shallow) |
| IdentityCore.FilterUserSharesExtra | keystone/identity/core.py:45-50 | the shallow copy shares the extra dict: the caller's extra loses its secrets too, while the caller's top-level password stays |
| IdentityCore.FilterUserIdempotent | keystone/identity/core.py:38-53 | filtering a filtered user changes nothing |
| IdentityCore.RequireDomainOrProject | keystone/identity/core.py:1035-1038 | passes if and only if exactly one of domain and project is truthy; otherwise a ValidationError with the source's message |
| IdentityCore.TenantRef.constructor | keystone/identity/core.py:574 | a tenant ref holds the given dict |
| IdentityCore.Rows | keystone/identity/core.py:574 | the dicts behind the tenant refs, position by position |
| IdentityCore.PageStart | keystone/identity/core.py:575-585 | no marker starts at 0; otherwise the start is one past the first ref whose id equals the marker; "Marker could not be found" exactly when no ref has that id; a ref without "id" before the match is a KeyError |
| IdentityCore.MarkerIndex | keystone/identity/core.py:578-585 | the `for ... else` scan: from a point past which no ref matches, it finds the first match or reports that none exists |
| IdentityCore.EndOf | keystone/identity/core.py:589-597 | a limit is accepted if and only if it is a non-negative integer, and the end is start + limit; otherwise "Invalid limit value" |
| IdentityCore.PageEnd | keystone/identity/core.py:587-597 | no limit means an open end; a limit text is accepted if and only if `int()` parses it to a non-negative value, the end then being start plus that value |
| IdentityCore.WithEnabled | keystone/identity/core.py:601-603 | keeps every existing key (an existing "enabled" included) and adds enabled=True only when absent |
| IdentityCore.PageIsContiguous | keystone/identity/core.py:597-599 | the page is the contiguous run of at most `limit` refs that starts right after the marker |
| IdentityCore.FindMarker | keystone/identity/core.py:576-585 | the loop over the refs finds the same start as the specification `PageStart` |
| IdentityCore.DefaultEnabled | keystone/identity/core.py:601-603 | every ref on the page now has "enabled", defaulting to True, with its other keys untouched |
| IdentityCore.FormatTenantList | keystone/identity/core.py:574-606 | the bounds errors are returned as is; otherwise the result is exactly the slice of the refs with empty tenants_links, the refs on the page got "enabled", and refs off the page are not modified |
| IdentitySql.RowToDict | keystone/identity/backends/sql.py:40-53 | a user or tenant row's dict: id and name columns plus the extra keys, columns winning, with no "extra" key |
| IdentitySql.RowToDictWithExtra | keystone/identity/backends/sql.py:340 | `to_dict(include_extra_dict=True)` is the plain dict plus "extra" holding the whole extra bag |
| IdentitySql.RowFromDict | keystone/identity/backends/sql.py:315 | `from_dict` takes id and name from the ref and puts every other key except "extra" in the extra bag |
| IdentitySql.StripUser | keystone/identity/backends/sql.py:181-182 | a stored user as returned to callers: no secrets, every other key of its dict, and its id and name |
| IdentitySql.FilterStoredRow | keystone/identity/backends/sql.py:164 | `filter_user` succeeds on every stored row's dict and gives that stripped user |
| IdentitySql.HashUserPassword | keystone/identity/backends/sql.py:312 | `hash_user_password`: only the password changes, to its hash; all other keys are kept |
| IdentitySql.FirstNamed | keystone/identity/backends/sql.py:150-155 | `filter_by(name=...).first()`: a found id is a stored row with that name; none found means no row has the name |
| IdentitySql.FirstNamedUnique | keystone/identity/backends/sql.py:44 | with unique names, looking a row up by its own name finds that row |
| IdentitySql.GetTenant | keystone/identity/backends/sql.py:143-148 | found if and only if stored, as its dict; otherwise TenantNotFound for that id |
| IdentitySql.GetTenantByName | keystone/identity/backends/sql.py:150-155 | found if and only if a tenant has that name, as that tenant's dict (its name matches and its id is text); otherwise TenantNotFound |
| IdentitySql.GetTenantByNameFinds | keystone/identity/backends/sql.py:150-155 | with unique names, lookup by a tenant's name equals lookup by its id |
| IdentitySql.GetUserRaw | keystone/identity/backends/sql.py:167-172 | `_get_user`: found if and only if stored, as its unfiltered dict; otherwise UserNotFound |
| IdentitySql.GetUserByNameRaw | keystone/identity/backends/sql.py:174-179 | `_get_user_by_name`: found if and only if a user has that name, and the found dict has that name |
| IdentitySql.GetUser | keystone/identity/backends/sql.py:181-182 | the stored user's dict passed through `filter_user`, so no secrets; otherwise UserNotFound |
| IdentitySql.GetUserByName | keystone/identity/backends/sql.py:184-185 | found if and only if the raw lookup finds a user; the result has that name and no secrets |
| IdentitySql.GetMetadata | keystone/identity/backends/sql.py:187-195 | the stored data for (user, tenant) if and only if a row exists; otherwise MetadataNotFound |
| IdentitySql.GetRole | keystone/identity/backends/sql.py:197-202 | the stored role if and only if it exists; otherwise RoleNotFound |
| IdentitySql.StrippedUsers | keystone/identity/backends/sql.py:207 | each listed user, filtered, in order |
| IdentitySql.StrippedUsersCover | keystone/identity/backends/sql.py:207 | every listed user's stripped dict is in the listing |
| IdentitySql.ListUsers | keystone/identity/backends/sql.py:204-207 | one secret-free dict per stored user, and every stored user appears |
| IdentitySql.RolesInOrder | keystone/identity/backends/sql.py:211-212 | the roles in table order |
| IdentitySql.ListRoles | keystone/identity/backends/sql.py:209-212 | exactly the stored roles, one entry per role |
| IdentitySql.TenantDicts | keystone/identity/backends/sql.py:248 | each listed tenant's dict, in order |
| IdentitySql.GetTenants | keystone/identity/backends/sql.py:245-248 | one dict per stored tenant, and every stored tenant appears |
| IdentitySql.TenantsOf | keystone/identity/backends/sql.py:253-256 | the tenant ids are exactly those the user is a member of, without repeats |
| IdentitySql.UsersIn | keystone/identity/backends/sql.py:160-165 | the join: exactly the stripped dicts of the users who are members of the tenant |
| IdentitySql.GetTenantUsers | keystone/identity/backends/sql.py:157-165 | an unknown tenant is TenantNotFound; otherwise the result holds exactly the tenant's members, stripped, and no result carries secrets |
| IdentitySql.GetTenantsForUser | keystone/identity/backends/sql.py:250-256 | an unknown user is UserNotFound; otherwise the ids are exactly the user's memberships |
| IdentitySql.GetRolesForUserAndTenant | keystone/identity/backends/sql.py:258-265 | user then tenant must exist (UserNotFound before TenantNotFound); then the metadata's "roles", defaulting to [] when there is no row or no key |
| IdentitySql.AuthenticateWith | keystone/identity/backends/sql.py:109-141 | an unknown user and a wrong password give the same "Invalid user / password"; a tenant outside the user's tenants is "Invalid tenant"; success returns the stripped user, the tenant's dict, and no tenant and {} when none was asked for |
| IdentitySql.AuthenticateWithLookups | keystone/identity/backends/sql.py:129-134 | the result depends on the tenant and metadata lookups only through their answers for this user and tenant |
| IdentitySql.Authenticate | keystone/identity/backends/sql.py:109-141 | success means the user exists and carries no secrets, a requested tenant is one the user belongs to, and a returned tenant comes with its metadata (or {}) |
| IdentitySql.AuthenticateMember | keystone/identity/backends/sql.py:128-141 | a member with the right password gets exactly its stripped user, the tenant's dict and its metadata, {} when none is stored |
| IdentitySql.AuthenticateWithMember | keystone/identity/backends/sql.py:128-141 | for any lookups that list the tenant, the right password succeeds with the stored tenant and the metadata, or {} on MetadataNotFound |
| IdentitySql.MetaOf | keystone/identity/backends/sql.py:271-276 | the stored metadata, or {} when there is no row |
| IdentitySql.ElementSet | keystone/identity/backends/sql.py:277 | Python `set(x)`: a list whose elements are all hashable becomes the set of its elements; an unhashable element or a non-iterable value is a TypeError |
| IdentitySql.RoleSet | keystone/identity/backends/sql.py:277 | `set(metadata.get('roles', []))`: no "roles" key is the empty set |
| IdentitySql.RolesWrittenRoleSet | keystone/identity/backends/sql.py:282-283 | after `metadata['roles'] = list(roles)` the stored roles read back as exactly that set |
| IdentitySql.GrantThenRevoke | keystone/identity/backends/sql.py:267-306 | granting a role the pair did not have and then revoking it gives the original role set, and every other metadata key is unchanged |
| IdentitySql.DropUser | keystone/identity/backends/sql.py:345-347 | the memberships left are exactly those of other users, without repeats |
| IdentitySql.DropTenant | keystone/identity/backends/sql.py:386-388 | the memberships left are exactly those of other tenants, without repeats |
| IdentitySql.MetadataWithoutUser | keystone/identity/backends/sql.py:348-350 | the metadata rows left are exactly those of other users, unchanged |
| IdentitySql.MetadataWithoutTenant | keystone/identity/backends/sql.py:389-391 | the metadata rows left are exactly those of other tenants, unchanged |
| IdentitySql.WithoutUser | keystone/identity/backends/sql.py:342-352 | deleting a user removes it with every membership and metadata row of it, and keeps the store's constraints |
| IdentitySql.WithoutTenant | keystone/identity/backends/sql.py:383-393 | deleting a tenant removes it with every membership and metadata row of it, and keeps the store's constraints |
| IdentitySql.Updated | keystone/identity/backends/sql.py:331-338 | the updated row keeps its id |
| IdentitySql.UpdatedColumns | keystone/identity/backends/sql.py:331-338 | the new name comes from the changes when given; changed extra keys take the new values; untouched extra keys keep theirs; no other keys appear |
| IdentitySql.CleanName | keystone/identity/backends/sql.py:322-323 | a ref without "name" is unchanged; otherwise only the name changes, to its cleaned form, and a refused name fails with the cleaner's error |
| IdentitySql.NewUser | keystone/identity/backends/sql.py:310-318 | the new row has the given id and the cleaned name; every other key is in its extra, the password hashed |
| IdentitySql.NewTenant | keystone/identity/backends/sql.py:355-362 | the new row has the given id and the cleaned name; every other key is in its extra |
| IdentitySql.UpdatedUserView | keystone/identity/backends/sql.py:340 | the returned user has no secrets, its extra dict lacks them too, and the rest is the stripped row |
| IdentitySql.InsertKeepsConstraints | keystone/identity/backends/sql.py:43-44 | an insert keeps the primary-key and unique-name constraints if and only if it does not clash (new id, non-null name not taken) |
| IdentitySql.KeepsKeyedRows | keystone/identity/backends/sql.py:43-44 | writing a row with a non-null name keeps every row keyed by its id with a non-null name |
| IdentitySql.KeepsUniqueNames | keystone/identity/backends/sql.py:44 | writing a row whose name no other row has keeps names unique |
| IdentitySql.NewNameIsFree | keystone/identity/backends/sql.py:44 | if names are unique after the write, no other row had the new name, and a keyed table implies it is non-null |
| IdentitySql.RenameKeepsConstraints | keystone/identity/backends/sql.py:337-339 | an update keeps the constraints if and only if it does not clash |
| IdentitySql.InsertTenantKeepsStore | keystone/identity/backends/sql.py:358-361 | a non-clashing tenant insert keeps the whole store valid |
| IdentitySql.InsertUserKeepsStore | keystone/identity/backends/sql.py:314-317 | a non-clashing user insert keeps the whole store valid |
| IdentitySql.RenameTenantKeepsStore | keystone/identity/backends/sql.py:378-380 | a non-clashing tenant update keeps the whole store valid |
| IdentitySql.RenameUserKeepsStore | keystone/identity/backends/sql.py:337-339 | a non-clashing user update keeps the whole store valid |
| IdentitySql.Overlay | keystone/identity/backends/sql.py:413-415 | the `for k in new: data[k] = new[k]` loop gives the old dict overlaid with the new one |
| IdentitySql.SqlIdentity.constructor | keystone/identity/backends/sql.py:89 | a new driver has empty tables and the given hooks |
| IdentitySql.SqlIdentity.AddUserToTenant | keystone/identity/backends/sql.py:215-229 | an unknown tenant or user fails first, with nothing changed; otherwise the membership exists afterwards, added once, and nothing else changes |
| IdentitySql.SqlIdentity.RemoveUserFromTenant | keystone/identity/backends/sql.py:231-243 | an unknown tenant or user, or a missing membership ("User not found in tenant"), fails with nothing changed; otherwise only that membership is removed |
| IdentitySql.SqlIdentity.CreateMetadata | keystone/identity/backends/sql.py:395-403 | an existing (user, tenant) row is a Conflict with nothing changed; otherwise the row is added and the data returned |
| IdentitySql.SqlIdentity.UpdateMetadata | keystone/identity/backends/sql.py:405-418 | a missing row fails on `.data` with nothing changed; otherwise the row becomes the old data overlaid with the new keys |
| IdentitySql.SqlIdentity.DeleteMetadataAsWritten | keystone/identity/backends/sql.py:420-422 | as written, delete_metadata always fails on the missing `db` attribute |
| IdentitySql.SqlIdentity.DeleteMetadata | keystone/identity/backends/sql.py:420-422 | as intended, the (user, tenant) row is gone and nothing else changes |
| IdentitySql.SqlIdentity.AddRoleToUserAndTenant | keystone/identity/backends/sql.py:267-287 | user, tenant, role must exist, in that order; an unreadable role list is a TypeError and a role already held a Conflict, both with no write; otherwise the row's roles become the old set plus the role and only that row changes |
| IdentitySql.SqlIdentity.RemoveRoleFromUserAndTenant | keystone/identity/backends/sql.py:289-306 | a role not held is RoleNotFound and an unreadable list a TypeError, both with no write; otherwise only that row changes and its roles lose exactly that role |
| IdentitySql.SqlIdentity.CreateUser | keystone/identity/backends/sql.py:309-318 | a missing name is a KeyError and a refused name the cleaner's error; a clashing id or name is Conflict("user"); each failure writes nothing; otherwise the row is appended and the stripped user returned |
| IdentitySql.SqlIdentity.UpdateUser | keystone/identity/backends/sql.py:320-340 | name cleaning, then "Cannot change user ID", then UserNotFound, then Conflict on a clash, each with no write; otherwise only the user row changes (password hashed) and the filtered row with its extra is returned |
| IdentitySql.SqlIdentity.DeleteUser | keystone/identity/backends/sql.py:342-352 | an unknown user is UserNotFound with nothing changed (the cascade is rolled back); otherwise the user, its memberships and its metadata are gone |
| IdentitySql.SqlIdentity.CreateTenant | keystone/identity/backends/sql.py:354-362 | a missing name is a KeyError, a refused name the cleaner's error, a clash Conflict("tenant"), each with no write; otherwise the row is appended and its dict returned |
| IdentitySql.SqlIdentity.UpdateTenant | keystone/identity/backends/sql.py:364-381 | name cleaning, then TenantNotFound, then Conflict on a clash, each with no write; otherwise only the tenant row changes and its dict with extra is returned |
| IdentitySql.SqlIdentity.DeleteTenant | keystone/identity/backends/sql.py:383-393 | an unknown tenant is TenantNotFound with nothing changed; otherwise the tenant, its memberships and its metadata are gone |
| IdentitySql.SqlIdentity.CreateRole | keystone/identity/backends/sql.py:424-430 | `Role(**role)` rejects keys beyond id and name (TypeError); a taken id, missing name or taken name is Conflict("role"); otherwise the role is appended and the ref returned |
| IdentitySql.SqlIdentity.RevokeEverywhere | keystone/identity/backends/sql.py:447-457 | only metadata changes, with the same keys; each row is unchanged or has lost the role; a TypeError happens if and only if some row's roles are unreadable; on success every row has lost the role |
| IdentitySql.SqlIdentity.DeleteRole | keystone/identity/backends/sql.py:444-460 | the role is revoked in every metadata row (TypeError if and only if some row is unreadable); then a missing role is RoleNotFound with the role table unchanged, and an existing one is deleted from table and order |
| RoleController.AddRoleToUser | keystone/identity/core.py:743-763 | no tenant is NotImplemented with nothing changed; an unknown tenant is TenantNotFound, then an unknown user UserNotFound, both with nothing changed; otherwise the user becomes a member of the tenant, then an unknown role is RoleNotFound, an unreadable role list TypeError and a role already held Conflict, each leaving only the membership added; a role not yet held is granted, the role is returned, and nothing else changes |
| RoleController.RemoveRoleFromUser | keystone/identity/core.py:765-786 | no tenant is NotImplemented with nothing changed; an unreadable role list is TypeError and a role not held RoleNotFound, both with nothing changed; otherwise the revocation is written, then a missing user or tenant raises UserNotFound or TenantNotFound; an emptied role list ends the membership, NotFound when there was none; it passes exactly when the role was held by an existing pair that still has roles or was a member |
| Controller.PaginateAsWritten | keystone/common/controller.py:17-21 | as written, `_paginate` succeeds if and only if page and per_page are numbers, and then slices `[per_page*(page-1) : per_page*page]`; text values give a TypeError |
| Controller.PaginateAsWrittenRejectsText | keystone/common/controller.py:19-21 | a query string with `page="2"` or `per_page="10"` (query values are text) fails with a TypeError |
| Controller.IntParam | keystone/common/controller.py:19-20 | an absent key gives the default; a text value succeeds if and only if `int()` parses it; a number is taken as is |
| Controller.Paginate | keystone/common/controller.py:17-21 | as intended, pagination succeeds if and only if both parameters parse, and then takes the same slice |
| Controller.PaginateIsPage | keystone/common/controller.py:17-21 | for page >= 1 given as text, the corrected pagination returns exactly page number `page` of size `per_page` |
| Controller.SliceIsPage | keystone/common/controller.py:21 | for page >= 1 the slice expression is that page |
| Controller.PageLength | keystone/common/controller.py:21 | a page never holds more than per_page refs |
| Controller.PagesTile | keystone/common/controller.py:21 | pages 1 to n together are exactly the first n*per_page refs, so pages neither overlap nor skip |
| Controller.RequireAttribute | keystone/common/controller.py:23-27 | passes if and only if the attribute is present and neither None nor ""; otherwise the source's ValidationError message |
| Controller.RequireMatchingId | keystone/common/controller.py:29-32 | fails ("Cannot change ID") if and only if the ref has an id different from the value; a ref without id passes |
| Controller.RequireMatchingOwnId | keystone/common/controller.py:29-32 | a ref always matches its own id |
| Controller.AssignUniqueId | keystone/common/controller.py:34-38 | a copy with "id" set to the fresh id and every other key kept |
| Controller.AssignedIdMatches | keystone/common/controller.py:29-38 | a ref given a fresh id passes the matching-id check for that id |
| Controller.KeepWhere | keystone/common/controller.py:44 | a comprehension over `r[attr]` fails only with KeyError(attr) and never yields more refs |
| Controller.KeepMatching | keystone/common/controller.py:44 | `[r for r in refs if r[attr] == value]` fails only with KeyError(attr) and never yields more refs |
| Controller.KeepWhereSucceeds | keystone/common/controller.py:44 | the comprehension succeeds if and only if every ref has the attribute |
| Controller.KeepWhereMembers | keystone/common/controller.py:44 | the kept refs are exactly those whose attribute satisfies the test |
| Controller.KeepWhereAppend | keystone/common/controller.py:44 | filtering a concatenation is concatenating the filtered parts |
| Controller.KeepWhereIdempotent | keystone/common/controller.py:44 | filtering twice is filtering once |
| Controller.KeepMatchingMembers | keystone/common/controller.py:44 | the kept refs are exactly those whose attribute equals the query value |
| Controller.FilterByAttribute | keystone/common/controller.py:40-45 | no such query key returns the refs unchanged; otherwise the refs whose attribute equals the query value |
| Ldap.Ldap2Py | keystone/common/ldap/wrapper.py:27-40 | "TRUE"/"FALSE" become booleans, and only they; otherwise text that `int()` accepts becomes that integer; anything else stays text |
| Ldap.Ldap2PyOfInt | keystone/common/ldap/wrapper.py:36-37 | the decimal text of any integer decodes to that integer |
| Ldap.Ldap2PyOfText | keystone/common/ldap/wrapper.py:40 | a value with no digits other than TRUE/FALSE stays text |
| Ldap.DecodeValues | keystone/common/ldap/wrapper.py:113 | `map(ldap2py, values)`: each value decoded, in order |
| Ldap.OrDefault | keystone/common/ldap/wrapper.py:56-63 | `option or DEFAULT`: a non-empty option wins, otherwise the default |
| Ldap.SegmentStart | keystone/common/ldap/wrapper.py:68 | walks back to just after the last underscore before the position |
| Ldap.LastSegment | keystone/common/ldap/wrapper.py:68 | `split('_')[-1]`: the longest underscore-free suffix, preceded by an underscore unless it is the whole text |
| Ldap.InitMappingOverlay | keystone/common/ldap/wrapper.py:64-68 | the option loop writes the same keys whatever the mapping already held: it overlays them on the old entries |
| Ldap.SharedMappingCarriesOver | keystone/common/ldap/wrapper.py:47-68 | an attribute mapping set by an earlier wrapper survives in the shared class-level dict unless this wrapper's options overwrite it |
| Ldap.InitMappingIdempotent | keystone/common/ldap/wrapper.py:64-68 | constructing a second wrapper of the same kind leaves the shared mapping as the first left it |
| Ldap.InitMapping | keystone/common/ldap/wrapper.py:64-68 | no contract; the constructor's attribute-map loop, defined by its body; InitMappingOverlay, SharedMappingCarriesOver and InitMappingIdempotent state its behaviour |
| Ldap.AttributeMapping.constructor | keystone/common/ldap/wrapper.py:47 | the class-level attribute mapping starts empty |
| Ldap.LdapWrapper.constructor | keystone/common/ldap/wrapper.py:49-68 | url/user/password from `[ldap]`; tree DN, id attribute and object class from the `<kind>_*` options or their defaults; the shared mapping gains `<kind>_attrmap_*` entries by last name segment |
| Ldap.LdapWrapper.Config | keystone/common/ldap/wrapper.py:49-68 | the settings a wrapper has read, its mapping being the shared one |
| Ldap.EscapeChar | keystone/common/ldap/wrapper.py:146 | `*`, `(`, `)`, `\` and NUL become a backslash and two hex digits; every other character is kept |
| Ldap.Escape | keystone/common/ldap/wrapper.py:146 | an escaped name has no special character except the escaping backslashes |
| Ldap.UnescapeEscape | keystone/common/ldap/wrapper.py:146 | escaping loses nothing: unescaping gives back the literal name |
| Ldap.Unescape | keystone/common/ldap/wrapper.py:146 | no contract; the inverse of the filter escape, used to state UnescapeEscape and NameFilterSafe |
| Ldap.ObjectFilter | keystone/common/ldap/wrapper.py:120-122 | `(objectClass=C)`, or `(&F(objectClass=C))` with an extra filter |
| Ldap.ObjectFilterBalanced | keystone/common/ldap/wrapper.py:120-122 | with a parenthesis-free class and a balanced extra filter the query is balanced |
| Ldap.ClassFilterBalanced | keystone/common/ldap/wrapper.py:120 | the objectClass test alone is balanced |
| Ldap.ConjunctionBalanced | keystone/common/ldap/wrapper.py:122 | the `(&...)` of two balanced filters is balanced |
| Ldap.ScanWrap | keystone/common/ldap/wrapper.py:120-122 | wrapping a balanced filter body in parentheses keeps it balanced |
| Ldap.NameFilter | keystone/common/ldap/wrapper.py:144-146 | the name filter is `(attr=escaped name)` |
| Ldap.NameFilterSafe | keystone/common/ldap/wrapper.py:144-146 | the name filter is balanced and contains no wildcard, and its value unescapes to the literal name, so metacharacters cannot widen the search |
| Ldap.CredentialOr | keystone/common/ldap/wrapper.py:77-80 | a truthy given credential wins, otherwise the configured one |
| Ldap.Connection | keystone/common/ldap/wrapper.py:76-90 | a connection is returned if and only if `ldap.initialize` accepts the configured URL; it is bound exactly when the credentials bind (a failed bind still returns it) |
| Ldap.ServiceConnection | keystone/common/ldap/wrapper.py:123 | no contract; the connection a lookup opens with the configured user and password, defined by its body |
| Ldap.Hits | keystone/common/ldap/wrapper.py:109 | a subtree search hits exactly the entries below the base that match the query |
| Ldap.RawSearch | keystone/common/ldap/wrapper.py:106-111 | a non-DN base is INVALID_DN_SYNTAX; an unbound connection without anonymous search is refused; success if and only if the base exists; base scope gives the base when it matches; subtree scope gives the hits |
| Ldap.ResToDict | keystone/common/ldap/wrapper.py:92-104 | the dict has "id" and exactly the mapped keys whose directory attribute is present, each with its first value or None |
| Ldap.Mapped | keystone/common/ldap/wrapper.py:94-103 | the mapped fields present in the entry, each with its first value |
| Ldap.ResToDictLoop | keystone/common/ldap/wrapper.py:92-104 | the loop over the mapping builds the dict `ResToDict` specifies |
| Ldap.FillFields | keystone/common/ldap/wrapper.py:94-103 | after the loop every mapped key has been visited |
| Ldap.Search | keystone/common/ldap/wrapper.py:106-117 | NO_SUCH_OBJECT and INVALID_DN_SYNTAX give []; a refused search is an error; otherwise one dict per hit, in order |
| Ldap.GetObjects | keystone/common/ldap/wrapper.py:119-127 | no connection gives []; every result is a matching entry below the tree DN |
| Ldap.GetObjectsComplete | keystone/common/ldap/wrapper.py:119-127 | with a usable connection every matching entry below the tree DN is returned |
| Ldap.GetAll | keystone/common/ldap/wrapper.py:140-141 | every result is an entry of the wrapper's object class below its tree DN |
| Ldap.GetByDn | keystone/common/ldap/wrapper.py:129-138 | no connection or a non-DN gives None; a result is the entry at that DN; a missing DN gives None |
| Ldap.GetByDnFinds | keystone/common/ldap/wrapper.py:129-138 | with a usable connection an existing DN's entry is returned |
| Ldap.GetByName | keystone/common/ldap/wrapper.py:143-149 | no connection gives None; it fails exactly when the object search fails; otherwise it is None exactly when the search found nothing, else the first record found, which matches the escaped name filter and the object class below the tree DN |
| Ldap.GetByNameFinds | keystone/common/ldap/wrapper.py:143-149 | with a usable connection, an entry below the tree DN that matches the name filter means a record is returned, so None means nothing matched |
| Ldap.AuthenticateAsWrittenSkipsBind | keystone/common/ldap/wrapper.py:151-155 | as written, a wrong password still returns the user's entry when anonymous search is allowed, because the connection is returned after a failed bind |
| Ldap.AuthenticateAsWritten | keystone/common/ldap/wrapper.py:151-155 | no contract; the wrapper's authenticate as it stands, defined by its body; AuthenticateAsWrittenSkipsBind and AuthenticateAsWrittenRejectsNonDn state its behaviour |
| Ldap.AuthenticateAsWrittenRejectsNonDn | keystone/common/ldap/wrapper.py:151-155 | as written, an id that is not a DN raises IndexError on `[0]` instead of returning no user |
| Ldap.Authenticate | keystone/common/ldap/wrapper.py:151-155 | as intended, a user is returned only when the bind with the given credentials succeeded, and it is that DN's entry; a URL that `ldap.initialize` refuses, a failed bind or a non-DN id gives None |
| Ldap.AuthenticateFinds | keystone/common/ldap/wrapper.py:151-155 | the right password for an existing DN returns its entry |
| LdapSql.PopPassword | keystone/identity/backends/ldap_sql.py:22-25 | a found user loses exactly its password; None stays None |
| LdapSql.PopPasswordIdempotent | keystone/identity/backends/ldap_sql.py:22-25 | filtering twice is filtering once |
| LdapSql.Found | keystone/identity/backends/ldap_sql.py:74 | a SQL lookup seen as an optional record: found if and only if found, with the same error otherwise |
| LdapSql.GetUser | keystone/identity/backends/ldap_sql.py:71-75 | a non-DN id is exactly the SQL lookup; a DN is answered only by the directory, password removed |
| LdapSql.GetUserOfDirectoryEntry | keystone/identity/backends/ldap_sql.py:71-75 | a DN with an entry that can be searched gives that entry without its password |
| LdapSql.GetUserByName | keystone/identity/backends/ldap_sql.py:77-82 | the directory's match wins when there is one; SQL by name only on a directory miss; no password either way |
| LdapSql.GetUserByNameKeepsTenants | keystone/identity/backends/ldap_sql.py:81-82 | on a directory miss, a "tenants" value in the SQL row survives, unlike the SQL driver's own get_user_by_name |
| LdapSql.RoleIdsNamed | keystone/identity/backends/ldap_sql.py:91-92 | the ids of exactly the roles whose names are listed |
| LdapSql.GetMetadata | keystone/identity/backends/ldap_sql.py:84-92 | a non-DN id is the SQL metadata; a DN gets `{"roles": ...}` with exactly the ids of roles named in default_roles, in list_roles order |
| LdapSql.GetTenantsForUser | keystone/identity/backends/ldap_sql.py:99-106 | a non-DN id is the SQL memberships; a DN gets exactly one tenant, the default tenant by name, and fails with TenantNotFound when it does not exist or is unset |
| LdapSql.GetTenantUsers | keystone/identity/backends/ldap_sql.py:63-69 | the SQL members come first; the whole directory population is appended exactly when the tenant's name is the default tenant |
| LdapSql.ListUsersAsWrittenFails | keystone/identity/backends/ldap_sql.py:94-97 | as written, list_users always fails: the wrapper has no get_all_users |
| LdapSql.ListUsersAsWritten | keystone/identity/backends/ldap_sql.py:94-97 | no contract; list_users as it stands (the SQL listing runs, then the directory call raises), defined by its body; ListUsersAsWrittenFails states that it always fails |
| LdapSql.ListUsers | keystone/identity/backends/ldap_sql.py:94-97 | as intended, the SQL users followed by all directory users, without de-duplication |
| LdapSql.AuthenticateVia | keystone/identity/backends/ldap_sql.py:40-61 | for any answer of the directory's authenticate: an error escapes; no record means exactly the SQL authenticate with this driver's lookups; with a record, a failing get_tenants_for_user (no or missing default tenant) is that error, a tenant outside the user's tenants is "Invalid tenant", no tenant is TenantNotFound, and success returns the record without password, the tenant and this driver's metadata |
| LdapSql.Authenticate | keystone/identity/backends/ldap_sql.py:33-61 | authenticate over the corrected wrapper (`Ldap.Authenticate`): no directory user means exactly the SQL authenticate with this driver's lookups; a directory user: a failing get_tenants_for_user (no or missing default tenant) is that error, a tenant outside its tenants is "Invalid tenant", no tenant is TenantNotFound, and success returns the entry without password, the tenant and the default-role metadata |
| LdapSql.AuthenticateAsWritten | keystone/identity/backends/ldap_sql.py:33-61 | authenticate over the wrapper as it stands (`Ldap.AuthenticateAsWritten`): a successful result never carries a password |
| LdapSql.AuthenticateAsWrittenRejectsSqlUser | keystone/identity/backends/ldap_sql.py:40-47 | as written, on a running server at a URL `ldap.initialize` accepts, an id that is not a DN fails with IndexError, so no SQL user can log in |
| LdapSql.AuthenticateAsWrittenSkipsBind | keystone/identity/backends/ldap_sql.py:40-61 | as written, with anonymous search a directory user with a wrong password logs in to the default tenant |
| LdapSql.ViaDirectoryRecord | keystone/identity/backends/ldap_sql.py:51-61 | any directory record for a DN admits the user to the default tenant |
| LdapSql.AuthenticateSqlUser | keystone/identity/backends/ldap_sql.py:40-47 | over the corrected wrapper, an id that is not a DN authenticates exactly as with the SQL driver |
| LdapSql.AuthenticateNeedsBind | keystone/identity/backends/ldap_sql.py:40-47 | over the corrected wrapper, a failed bind is a directory miss: an id that is not a SQL user is refused as an invalid user or password |
| LdapSql.DirectoryLoginWithoutDefaultTenant | keystone/identity/backends/ldap_sql.py:50 | with no default tenant configured, a directory user cannot log in whatever tenant is asked for: get_tenants_for_user's TenantNotFound escapes |
| LdapSql.UnscopedDirectoryLoginFails | keystone/identity/backends/ldap_sql.py:56 | a directory user who names no tenant is refused, since `get_tenant(None)` raises |
| LdapSql.DirectoryLoginToDefaultTenant | keystone/identity/backends/ldap_sql.py:51-61 | a directory user who binds and asks for the default tenant gets in with that tenant and the default-role metadata |
| Ec2LdapSql.FilterCred | keystone/contrib/ec2/backends/ldap_sql.py:29-41 | an empty ref passes through; otherwise "id" is renamed "user_id"; with a default tenant, "tenant_id" is that tenant's id and a missing tenant fails; a ref without "id" is a KeyError; other keys are kept |
| Ec2LdapSql.FilterDirectoryRecord | keystone/contrib/ec2/backends/ldap_sql.py:29-41 | a directory record always has an id, so filtering it succeeds and user_id is its DN |
| Ec2LdapSql.GetByName | keystone/contrib/ec2/backends/ldap_sql.py:43-44 | the wrapper's name lookup passed through the credential filter, errors kept |
| Ec2LdapSql.GetByDn | keystone/contrib/ec2/backends/ldap_sql.py:46-47 | the wrapper's DN lookup passed through the credential filter, errors kept |
| Ec2LdapSql.GetCredential | keystone/contrib/ec2/backends/ldap_sql.py:51-55 | the directory's credential when present; the SQL credential on a directory miss |
| Ec2LdapSql.GetCredentialWithoutDirectory | keystone/contrib/ec2/backends/ldap_sql.py:51-55 | with no directory connection the answer is the SQL credential |
| Ec2LdapSql.ListCredentials | keystone/contrib/ec2/backends/ldap_sql.py:57-64 | a non-DN owner is the SQL listing; a DN gets at most its one directory credential, [] when none, never merged with SQL |
| Ec2LdapSql.ListCredentialsOfDirectoryUser | keystone/contrib/ec2/backends/ldap_sql.py:57-64 | a DN owner whose entry exists has exactly one credential, owned by that DN |

## Left out

- The directory server's I/O (`ldap.initialize`, `simple_bind_s`, `search_s`, SERVER_DOWN) is not executed. The server is the value `Ldap.Directory`: whether `ldap.initialize` accepts the URL, which credentials bind, anonymous search, the DN syntax (`ldap.dn.str2dn`, as `isDn`), the subtree relation and which filters match which entries are fields of it.
- A server that is down is not a separate state of `Ldap.Directory`. `ldap.initialize` does not contact the server, and `_get_connection` returns the connection even after SERVER_DOWN, so a down server appears only as a directory where nothing binds and anonymous search is refused: a search at a valid DN then fails with the search error (`Ldap.RawSearch`'s `Refused`) rather than giving `[]` or None. A search at a non-DN base still gives INVALID_DN_SYNTAX in the model (so `[]`, None, or IndexError in `authenticate`), where a down server raises SERVER_DOWN.
- Row ids are text: `IdentitySql.SqlIdentity.CreateUser`, `IdentitySql.SqlIdentity.CreateTenant` and `IdentitySql.SqlIdentity.CreateRole` require a string `id`, and `CatalogSql.Catalog.CreateEndpoint` answers ServiceNotFound for a `service_id` that is not a string. A client-supplied id that is a number or null reaches the driver unchanged, and what the database then does is not modelled.
- SQLAlchemy sessions and transactions are left out. Each driver call is atomic: a failing call leaves its state unchanged. The `handle_conflicts` decorator's IntegrityError appears as the `Conflict` error.
- Row order: query results come back in insertion order, and the model does not represent database ordering.
- `Collections.ListOfSet`: the order of `list(set)` is left unfixed. Only membership and count are stated.
- Password hashing and checking (`utils.hash_user_password`, `utils.check_password`) and name cleaning (`clean.user_name`, `clean.tenant_name`) are parameters (`IdentitySql.Hooks`).
- The `CONF` singleton and `uuid.uuid4()` are parameters.
- `IdentitySql.SqlIdentity.UpdateMetadata`: it returns the merged data rather than the ORM row object.
- `update_role` (keystone/identity/backends/sql.py:433-442) is not modelled. It writes ORM attributes by name, which the value model of rows does not have.
- Manager dispatch, the WSGI controllers' context and admin checks (`assert_admin`) are left out.
- Token revocation in the role controller (`token_api.revoke_tokens`) is left out. It belongs to another subsystem.
- The default tenant that `_filter_cred` looks up through `identity.Manager` is resolved with the SQL driver's `get_tenant_by_name`.
- keystone/contrib/ec2/backends/sql.py is not part of this model. Its `get_credential` and `list_credentials` are the parameters `sqlCredential` and `sqlCredentials`.
- keystone/common/sql is not part of this model. `DictBase.from_dict`/`to_dict` are modelled in `SqlRows` from their use here.
- `FormatUrl.Format` models the grammar `%%` and `%(key)s`, `%(key)d`, `%(key)i`. Every other conversion, flag, width or precision, and `%s` of a list or dict value (whose `str()` text is Python's), gives `Unmodelled`. The model does not predict those results.
- `IdentitySql.Hashable` treats lists and dicts as unhashable and every other value as hashable. This is how `set(metadata['roles'])` behaves.
- `IdentitySql.SqlIdentity.DeleteRole`: the revocations are edits that persist even when the role row then turns out to be missing. `remove_role_from_user_and_tenant` writes through `update_metadata`'s own session, so it is not clear whether the outer session rolls them back.
- `LdapSql.Authenticate`: the federated driver's authenticate is proved over the corrected LDAP wrapper. Over the wrapper as written (`LdapSql.AuthenticateAsWritten`), only the two failures in the Findings are stated, not the full contract.
- Logging calls are left out.

## Findings

| source | as written | input that shows it | evidently intended | confidence | as-written member | corrected member |
|---|---|---|---|---|---|---|
| keystone/common/ldap/wrapper.py:76-90 | `_get_connection` returns the connection from its `finally:` even when `simple_bind_s` raised INVALID_CREDENTIALS, so `authenticate` goes on to search | a directory that allows anonymous search, an existing user DN and a wrong password: the user's entry is returned | a failed bind yields no user | not executed | Ldap.AuthenticateAsWrittenSkipsBind | Ldap.Authenticate |
| keystone/common/ldap/wrapper.py:151-155 | `self._ldap_search(conn, user, ldap.SCOPE_BASE)[0]` indexes an empty list | a user id that is not a DN (INVALID_DN_SYNTAX → `[]`): IndexError | no user, so the SQL driver decides | not executed | Ldap.AuthenticateAsWrittenRejectsNonDn | Ldap.Authenticate |
| keystone/identity/backends/ldap_sql.py:40-47 | `authenticate` relies on the wrapper answering "no user" so that SQL decides, but the wrapper raises IndexError for a non-DN id | a running server at a URL `ldap.initialize` accepts, and any SQL user id: IndexError, so SQL users cannot log in | a non-DN id falls through to the SQL driver | not executed | LdapSql.AuthenticateAsWrittenRejectsSqlUser | LdapSql.AuthenticateSqlUser |
| keystone/identity/backends/ldap_sql.py:94-97 | `list_users` calls `UserLdap().get_all_users()`, which the wrapper does not define | any call: AttributeError | the wrapper's `get_all()` | not executed | LdapSql.ListUsersAsWrittenFails | LdapSql.ListUsers |
| keystone/identity/backends/sql.py:420-422 | `delete_metadata` calls `self.db.delete(...)`; the SQL driver has no `db` | any call: AttributeError | delete the (user, tenant) metadata row | not executed | IdentitySql.SqlIdentity.DeleteMetadataAsWritten | IdentitySql.SqlIdentity.DeleteMetadata |
| keystone/common/controller.py:17-21 | `page` and `per_page` come from the query string as text and are used in arithmetic | `page="2"`: TypeError on `page - 1` | parse both as integers first | not executed | Controller.PaginateAsWrittenRejectsText | Controller.PaginateIsPage |
