/**
 * Helpers of the identity service layer: stripping secrets from user refs,
 * the marker/limit pagination of the tenant listing, and the V3 rule that a
 * grant names exactly one of a domain and a project.
 */
module IdentityCore {
  import opened Wrappers
  import opened Values
  import opened Collections

  // ----- filter_user ---------------------------------------------------------------

  const Secrets: set<string> := {"password", "tenants"}

  /** No "password" or "tenants" key. */
  predicate NoSecrets(r: Record)
  {
    "password" !in r && "tenants" !in r
  }

  /**
   * filter_user: a copy of the ref without "password" and "tenants", and the
   * same two keys popped from its "extra" dictionary. A falsy (empty) ref is
   * returned as it is. An "extra" that is a list cannot pop with a default
   * (TypeError); one that is a scalar has no pop at all (AttributeError).
   */
  function FilterUser(u: Record): (r: Result<Record, Error>)
    ensures u == map[] ==> r == Success(u)
    ensures r.Failure? <==> u != map[] && "extra" in u && !u["extra"].VDict?
    ensures r.Success? && u != map[] ==>
      && NoSecrets(r.value)
      && r.value.Keys == u.Keys - Secrets
      && (forall k :: k in r.value && k != "extra" ==> r.value[k] == u[k])
      && ("extra" in r.value ==> r.value["extra"] == VDict(u["extra"].fields - Secrets))
  {
    if u == map[] then Success(u)
    else
      var top := u - Secrets;
      if "extra" !in top then Success(top)
      else match top["extra"]
        case VDict(e) => Success(top["extra" := VDict(e - Secrets)])
        case VList(_) => Failure(TypeError)
        case _ => Failure(AttributeError("pop"))
  }

  /**
   * What the caller's own dictionary looks like after filter_user: the copy
   * is shallow, so the "extra" dictionary it shares with the result lost its
   * secrets too, while its top level is untouched.
   */
  function CallerAfterFilter(u: Record): (c: Record)
    ensures c.Keys == u.Keys
    ensures forall k :: k in u && k != "extra" ==> c[k] == u[k]
  {
    if u != map[] && "extra" in u && u["extra"].VDict? then u["extra" := VDict(u["extra"].fields - Secrets)]
    else u
  }

  /** The shared "extra" of the caller and of the result are the same dictionary. */
  lemma FilterUserSharesExtra(u: Record)
    requires FilterUser(u).Success? && u != map[] && "extra" in u
    ensures "extra" in FilterUser(u).value
    ensures FilterUser(u).value["extra"] == CallerAfterFilter(u)["extra"]
    ensures "password" in u ==> CallerAfterFilter(u)["password"] == u["password"]
  {
  }

  /** Filtering twice is filtering once. */
  lemma FilterUserIdempotent(u: Record)
    requires FilterUser(u).Success?
    ensures FilterUser(FilterUser(u).value) == FilterUser(u)
  {
    var r := FilterUser(u).value;
    if u != map[] {
      if r == map[] {
      } else {
        assert r - Secrets == r;
        if "extra" in r {
          assert r["extra"].fields - Secrets == r["extra"].fields;
          assert r["extra" := VDict(r["extra"].fields - Secrets)] == r;
        }
      }
    }
  }

  // ----- _require_domain_or_project ----------------------------------------------

  /** A grant must name a domain or a project but not both, judged by truthiness. */
  function RequireDomainOrProject(domainId: Value, projectId: Value): (r: Outcome<Error>)
    ensures r.Pass? <==> (Truthy(domainId) && !Truthy(projectId)) || (!Truthy(domainId) && Truthy(projectId))
    ensures r.Fail? ==> r.error == ValidationError("Specify a domain or project, not both")
  {
    if (Truthy(domainId) && Truthy(projectId)) || (!Truthy(domainId) && !Truthy(projectId)) then
      Fail(ValidationError("Specify a domain or project, not both"))
    else Pass
  }

  // ----- _format_tenant_list -------------------------------------------------------

  /** A tenant dictionary, updated in place by the listing. */
  class TenantRef {
    var fields: Record

    constructor (fields: Record)
      ensures this.fields == fields
    {
      this.fields := fields;
    }
  }

  datatype TenantPage = TenantPage(tenants: seq<TenantRef>, tenantsLinks: seq<Value>)

  function Rows(refs: seq<TenantRef>): (rows: seq<Record>)
    reads set i | 0 <= i < |refs| :: refs[i]
    ensures |rows| == |refs| && forall i :: 0 <= i < |refs| ==> rows[i] == refs[i].fields
  {
    if refs == [] then [] else [refs[0].fields] + Rows(refs[1..])
  }

  /** The row matches the marker: its id equals the marker string. */
  predicate IsMarker(row: Record, marker: string)
    requires "id" in row
  {
    PyEq(row["id"], VStr(marker))
  }

  /**
   * Where the page starts: 0 without a marker, otherwise just after the first
   * row whose id equals the marker. A row without an id met before the match
   * raises KeyError; a marker no row matches raises ValidationError.
   */
  function PageStart(rows: seq<Record>, marker: Option<string>): (r: Result<nat, Error>)
    ensures marker.None? ==> r == Success(0)
    ensures r.Success? && marker.Some? ==>
      && 1 <= r.value <= |rows|
      && "id" in rows[r.value - 1] && IsMarker(rows[r.value - 1], marker.value)
      && forall j :: 0 <= j < r.value - 1 ==> "id" in rows[j] && !IsMarker(rows[j], marker.value)
    ensures r.Failure? ==> (marker.Some? &&
      (r.error == ValidationError("Marker could not be found") || r.error == KeyError("id")))
    ensures r.Failure? && r.error == ValidationError("Marker could not be found") ==>
      forall j :: 0 <= j < |rows| ==> "id" in rows[j] && !IsMarker(rows[j], marker.value)
  {
    if marker.None? then Success(0) else MarkerIndex(rows, marker.value, 0)
  }

  function MarkerIndex(rows: seq<Record>, marker: string, from: nat): (r: Result<nat, Error>)
    requires from <= |rows|
    requires forall j :: 0 <= j < from ==> "id" in rows[j] && !IsMarker(rows[j], marker)
    ensures r.Success? ==>
      && from + 1 <= r.value <= |rows|
      && "id" in rows[r.value - 1] && IsMarker(rows[r.value - 1], marker)
      && forall j :: 0 <= j < r.value - 1 ==> "id" in rows[j] && !IsMarker(rows[j], marker)
    ensures r.Failure? ==> r.error == ValidationError("Marker could not be found") || r.error == KeyError("id")
    ensures r.Failure? && r.error == ValidationError("Marker could not be found") ==>
      forall j :: 0 <= j < |rows| ==> "id" in rows[j] && !IsMarker(rows[j], marker)
    decreases |rows| - from
  {
    if from == |rows| then Failure(ValidationError("Marker could not be found"))
    else if "id" !in rows[from] then Failure(KeyError("id"))
    else if IsMarker(rows[from], marker) then Success(from + 1)
    else MarkerIndex(rows, marker, from + 1)
  }

  /** Where the page ends: the end of the list without a limit, else start + limit. */
  function PageEnd(start: nat, limit: Option<string>): (r: Result<Option<int>, Error>)
    ensures limit.None? ==> r == Success(None)
    ensures limit.Some? ==>
      var n := ParseInt(limit.value);
      && (r.Success? <==> n.Some? && n.value >= 0)
      && (r.Success? ==> r.value == Some(start + n.value))
    ensures r.Failure? ==> r.error == ValidationError("Invalid limit value")
  {
    if limit.None? then Success(None) else EndOf(start, ParseInt(limit.value))
  }

  /** The end for a parsed limit: int() must have succeeded on a non-negative number. */
  function EndOf(start: nat, n: Option<int>): (r: Result<Option<int>, Error>)
    ensures r.Success? <==> n.Some? && n.value >= 0
    ensures r.Success? ==> r.value == Some(start + n.value)
    ensures r.Failure? ==> r.error == ValidationError("Invalid limit value")
  {
    if n.None? || n.value < 0 then Failure(ValidationError("Invalid limit value")) else Success(Some(start + n.value))
  }

  /** The slice bounds of the page, marker errors first, then limit errors. */
  function PageBounds(rows: seq<Record>, marker: Option<string>, limit: Option<string>): Result<(nat, Option<int>), Error>
  {
    match PageStart(rows, marker)
    case Failure(e) => Failure(e)
    case Success(start) =>
      match PageEnd(start, limit)
      case Failure(e) => Failure(e)
      case Success(end) => Success((start, end))
  }

  /** The dictionary with "enabled" defaulted to True. */
  function WithEnabled(f: Record): (r: Record)
    ensures r.Keys == f.Keys + {"enabled"}
    ensures forall k :: k in f ==> r[k] == f[k]
    ensures "enabled" !in f ==> r["enabled"] == VBool(true)
  {
    if "enabled" in f then f else f["enabled" := VBool(true)]
  }

  /** A page holds at most `limit` tenants, taken contiguously from the start. */
  lemma PageIsContiguous(rows: seq<Record>, start: nat, limit: nat)
    requires start <= |rows|
    ensures var page := PySlice(rows, Some(start), Some(start + limit));
      && |page| <= limit
      && |page| == (if start + limit <= |rows| then limit else |rows| - start)
      && forall i :: 0 <= i < |page| ==> page[i] == rows[start + i]
  {
    PySliceNonNegative(rows, start, start + limit);
  }

  /** The marker search of _format_tenant_list: the page start, or its error. */
  method FindMarker(refs: seq<TenantRef>, marker: string) returns (r: Result<nat, Error>)
    ensures r == PageStart(Rows(refs), Some(marker))
  {
    ghost var rows := Rows(refs);
    var i := 0;
    while i < |refs|
      invariant 0 <= i <= |refs|
      invariant forall j :: 0 <= j < i ==> "id" in rows[j] && !IsMarker(rows[j], marker)
      invariant MarkerIndex(rows, marker, i) == MarkerIndex(rows, marker, 0)
    {
      if "id" !in refs[i].fields {
        return Failure(KeyError("id"));
      }
      if PyEq(refs[i].fields["id"], VStr(marker)) {
        return Success(i + 1);
      }
      i := i + 1;
    }
    r := Failure(ValidationError("Marker could not be found"));
  }

  /** Default "enabled" to True on every tenant of the page, in place. */
  method DefaultEnabled(page: seq<TenantRef>)
    modifies set t | t in page
    ensures forall t :: t in page ==> t.fields == WithEnabled(old(t.fields))
  {
    var k := 0;
    while k < |page|
      invariant 0 <= k <= |page|
      invariant forall t :: t in page ==> t.fields == old(t.fields) || t.fields == WithEnabled(old(t.fields))
      invariant forall j :: 0 <= j < k ==> page[j].fields == WithEnabled(old(page[j].fields))
    {
      if "enabled" !in page[k].fields {
        page[k].fields := page[k].fields["enabled" := VBool(true)];
      }
      k := k + 1;
    }
  }

  /**
   * _format_tenant_list: find the page start after the marker, parse the
   * limit, slice, and default "enabled" to True on every tenant of the page
   * (in place), returning the page with empty tenants_links.
   */
  method FormatTenantList(refs: seq<TenantRef>, marker: Option<string>, limit: Option<string>)
    returns (r: Result<TenantPage, Error>)
    modifies set t | t in refs
    ensures var b := PageBounds(old(Rows(refs)), marker, limit);
      && (b.Failure? ==> r == Failure(b.error))
      && (b.Success? ==> r == Success(TenantPage(PySlice(refs, Some(b.value.0), b.value.1), [])))
    ensures r.Success? ==> forall t :: t in r.value.tenants ==> t.fields == WithEnabled(old(t.fields))
    ensures forall t :: t in refs && !(r.Success? && t in r.value.tenants) ==> t.fields == old(t.fields)
  {
    ghost var rows := Rows(refs);
    var firstIndex := 0;
    if marker.Some? {
      var start := FindMarker(refs, marker.value);
      if start.Failure? {
        return Failure(start.error);
      }
      firstIndex := start.value;
    }
    var lastIndex := PageEnd(firstIndex, limit);
    if lastIndex.Failure? {
      return Failure(lastIndex.error);
    }
    assert PageBounds(rows, marker, limit) == Success((firstIndex, lastIndex.value));
    var page := PySlice(refs, Some(firstIndex), lastIndex.value);
    PySliceElements(refs, Some(firstIndex), lastIndex.value);
    DefaultEnabled(page);
    r := Success(TenantPage(page, []));
  }

  lemma PySliceElements<T>(s: seq<T>, start: Option<int>, stop: Option<int>)
    ensures forall x :: x in PySlice(s, start, stop) ==> x in s
  {
    var r := PySlice(s, start, stop);
    forall x | x in r ensures x in s {
      var i :| 0 <= i < |r| && r[i] == x;
      var lo := SliceBound(start, 0, |s|);
      assert r[i] == s[lo + i];
    }
  }
}
