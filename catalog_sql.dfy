/**
 * The SQL catalog backend: services and endpoints in two tables, and the
 * assembly of the per-user service catalog, grouped by region and service
 * type, with endpoint URL templates filled in.
 */
module CatalogSql {
  import opened Wrappers
  import opened Values
  import opened Collections
  import SqlRows
  import FormatUrl

  /** A row of the `service` table. */
  datatype Service = Service(id: string, serviceType: Value, extra: Record)

  /** A row of the `endpoint` table; `serviceId` is a non-null foreign key. */
  datatype Endpoint = Endpoint(id: string, region: Value, serviceId: string, extra: Record)

  const ServiceAttributes: set<string> := {"id", "type"}
  const EndpointAttributes: set<string> := {"id", "region", "service_id"}

  function ServiceToDict(s: Service): (d: Record)
    ensures "id" in d && "type" in d && d["id"] == VStr(s.id) && d["type"] == s.serviceType
  {
    var columns := map["id" := VStr(s.id), "type" := s.serviceType];
    assert "id" in columns && "type" in columns;
    SqlRows.ToDict(columns, s.extra)
  }

  function EndpointToDict(e: Endpoint): (d: Record)
    ensures "id" in d && "region" in d && "service_id" in d
    ensures d["id"] == VStr(e.id) && d["region"] == e.region && d["service_id"] == VStr(e.serviceId)
  {
    var columns := map["id" := VStr(e.id), "region" := e.region, "service_id" := VStr(e.serviceId)];
    assert "id" in columns && "region" in columns && "service_id" in columns;
    SqlRows.ToDict(columns, e.extra)
  }

  function ServiceFromDict(id: string, ref: Record): Service
  {
    Service(id, SqlRows.Column(ref, "type"), SqlRows.ExtraOf(ref, ServiceAttributes))
  }

  function EndpointFromDict(id: string, serviceId: string, ref: Record): Endpoint
  {
    Endpoint(id, SqlRows.Column(ref, "region"), serviceId, SqlRows.ExtraOf(ref, EndpointAttributes))
  }

  /** A stored service reads back as the ref it was created from. */
  lemma ServiceRoundTrip(id: string, ref: Record)
    requires "id" in ref && ref["id"] == VStr(id) && "type" in ref && "extra" !in ref
    ensures ServiceToDict(ServiceFromDict(id, ref)) == ref
  {
    SqlRows.RowRoundTrip(ref, ServiceAttributes);
    assert (map a | a in ServiceAttributes :: SqlRows.Column(ref, a)) == map["id" := VStr(id), "type" := ref["type"]];
  }

  /** A stored endpoint reads back as the ref it was created from. */
  lemma EndpointRoundTrip(id: string, serviceId: string, ref: Record)
    requires "id" in ref && ref["id"] == VStr(id) && "service_id" in ref && ref["service_id"] == VStr(serviceId)
    requires "region" in ref && "extra" !in ref
    ensures EndpointToDict(EndpointFromDict(id, serviceId, ref)) == ref
  {
    SqlRows.RowRoundTrip(ref, EndpointAttributes);
    assert (map a | a in EndpointAttributes :: SqlRows.Column(ref, a)) ==
      map["id" := VStr(id), "region" := ref["region"], "service_id" := VStr(serviceId)];
  }

  // ----- catalog assembly -------------------------------------------------------

  /** One entry of the catalog: catalog[region][type]. */
  datatype Descriptor = Descriptor(
    id: string,
    name: Value,
    publicURL: Option<string>,
    internalURL: Option<string>,
    adminURL: Option<string>)

  type CatalogMap = map<Value, map<Value, Descriptor>>

  /** The substitution variables: the configuration, then tenant_id and user_id. */
  function TemplateVars(conf: Record, userId: Value, tenantId: Value): (d: Record)
    ensures d.Keys == conf.Keys + {"tenant_id", "user_id"}
    ensures d["tenant_id"] == tenantId && d["user_id"] == userId
    ensures forall k :: k in conf && k != "tenant_id" && k != "user_id" ==> d[k] == conf[k]
  {
    conf["tenant_id" := tenantId]["user_id" := userId]
  }

  /** One URL field of a descriptor: the formatted URL, None, or MalformedEndpoint. */
  function UrlField(template: Value, d: Record): (r: Result<Option<string>, Error>)
    ensures r == Success(None) <==> !template.VStr?
    ensures r.Failure? && r.error.MalformedEndpoint? ==> template.VStr? && r.error.endpoint == template.s
  {
    FormatUrl.FormatNoTemplate(template, d);
    match FormatUrl.Format(template, d)
    case Text(t) => Success(Some(t))
    case NoTemplate => Success(None)
    case Malformed => Failure(MalformedEndpoint(if template.VStr? then template.s else ""))
    case Unmodelled => Failure(OutsideModel("URL directive"))
  }

  function Get(d: Record, key: string, default: Value): Value
  {
    if key in d then d[key] else default
  }

  /** The (region, type, descriptor) an endpoint contributes, or the error it raises. */
  function Entry(services: map<string, Service>, ep: Endpoint, d: Record): Result<(Value, Value, Descriptor), Error>
  {
    if ep.serviceId !in services then Failure(ServiceNotFound(VStr(ep.serviceId)))
    else
      var service := ServiceToDict(services[ep.serviceId]);
      if "name" !in service then Failure(KeyError("name"))
      else
        var e := EndpointToDict(ep);
        match UrlField(Get(e, "publicurl", VStr("")), d)
        case Failure(err) => Failure(err)
        case Success(pub) =>
          match UrlField(Get(e, "internalurl", VNone), d)
          case Failure(err) => Failure(err)
          case Success(internal) =>
            match UrlField(Get(e, "adminurl", VNone), d)
            case Failure(err) => Failure(err)
            case Success(admin) =>
              Success((e["region"], service["type"], Descriptor(ep.id, service["name"], pub, internal, admin)))
  }

  /** catalog[region][type] = descriptor, creating the region on first use. */
  function Put(c: CatalogMap, region: Value, serviceType: Value, desc: Descriptor): (r: CatalogMap)
    ensures region in r && serviceType in r[region] && r[region][serviceType] == desc
    ensures forall g, t :: g in r && t in r[g] && !(g == region && t == serviceType) ==>
      g in c && t in c[g] && r[g][t] == c[g][t]
    ensures forall g, t :: g in c && t in c[g] ==> g in r && t in r[g]
  {
    c[region := (if region in c then c[region] else map[])[serviceType := desc]]
  }

  /** The catalog built from the endpoints listed in `ids`, processed in order. */
  function Assemble(services: map<string, Service>, endpoints: map<string, Endpoint>,
                    ids: seq<string>, d: Record, acc: CatalogMap): Result<CatalogMap, Error>
    requires forall i :: 0 <= i < |ids| ==> ids[i] in endpoints
  {
    if ids == [] then Success(acc)
    else match Entry(services, endpoints[ids[0]], d)
      case Failure(e) => Failure(e)
      case Success(entry) => Assemble(services, endpoints, ids[1..], d, Put(acc, entry.0, entry.1, entry.2))
  }

  predicate Listed(ids: seq<string>, endpoints: map<string, Endpoint>)
  {
    forall i :: 0 <= i < |ids| ==> ids[i] in endpoints
  }

  /** One step of the assembly: the first endpoint's entry, then the rest. */
  lemma AssembleFirst(services: map<string, Service>, endpoints: map<string, Endpoint>,
                      ids: seq<string>, d: Record, acc: CatalogMap)
    requires ids != [] && Listed(ids, endpoints)
    ensures Listed(ids[1..], endpoints)
    ensures var e := Entry(services, endpoints[ids[0]], d);
      Assemble(services, endpoints, ids, d, acc) ==
        if e.Failure? then Failure(e.error)
        else Assemble(services, endpoints, ids[1..], d, Put(acc, e.value.0, e.value.1, e.value.2))
  {
  }

  /** What one endpoint contributes: its region, its service's type and its descriptor. */
  type Slot = (Value, Value, Descriptor)

  /** The entries of the endpoints listed in `ids`, in order. */
  function Entries(services: map<string, Service>, endpoints: map<string, Endpoint>,
                   ids: seq<string>, d: Record): (r: seq<Result<Slot, Error>>)
    requires Listed(ids, endpoints)
    ensures |r| == |ids|
    ensures forall i :: 0 <= i < |ids| ==> r[i] == Entry(services, endpoints[ids[i]], d)
  {
    if ids == [] then [] else [Entry(services, endpoints[ids[0]], d)] + Entries(services, endpoints, ids[1..], d)
  }

  /** Entries put into the catalog one after another; the first failure stops the fold. */
  function Fold(results: seq<Result<Slot, Error>>, acc: CatalogMap): Result<CatalogMap, Error>
  {
    if results == [] then Success(acc)
    else if results[0].Failure? then Failure(results[0].error)
    else Fold(results[1..], Put(acc, results[0].value.0, results[0].value.1, results[0].value.2))
  }

  /** Assembling is folding the endpoints' entries. */
  lemma {:induction false} AssembleIsFold(services: map<string, Service>, endpoints: map<string, Endpoint>,
                                          ids: seq<string>, d: Record, acc: CatalogMap)
    requires Listed(ids, endpoints)
    ensures Assemble(services, endpoints, ids, d, acc) == Fold(Entries(services, endpoints, ids, d), acc)
  {
    if ids != [] {
      var e := Entry(services, endpoints[ids[0]], d);
      var results := Entries(services, endpoints, ids, d);
      assert results == [e] + Entries(services, endpoints, ids[1..], d);
      assert results[1..] == Entries(services, endpoints, ids[1..], d);
      if e.Success? {
        AssembleIsFold(services, endpoints, ids[1..], d, Put(acc, e.value.0, e.value.1, e.value.2));
      }
    }
  }

  function Lookup(c: CatalogMap, region: Value, serviceType: Value): Option<Descriptor>
  {
    if region in c && serviceType in c[region] then Some(c[region][serviceType]) else None
  }

  /** The descriptor of the last successful entry that lands on (region, type). */
  function LastMatch(results: seq<Result<Slot, Error>>, region: Value, serviceType: Value): Option<Descriptor>
  {
    if results == [] then None
    else
      var e := results[|results| - 1];
      if e.Success? && e.value.0 == region && e.value.1 == serviceType then Some(e.value.2)
      else LastMatch(results[..|results| - 1], region, serviceType)
  }

  lemma {:induction false} LastMatchCons(results: seq<Result<Slot, Error>>, region: Value, serviceType: Value)
    requires results != []
    ensures LastMatch(results, region, serviceType) ==
      var rest := LastMatch(results[1..], region, serviceType);
      var e := results[0];
      if rest.Some? then rest
      else if e.Success? && e.value.0 == region && e.value.1 == serviceType then Some(e.value.2)
      else None
    decreases |results|
  {
    if |results| > 1 {
      assert results[1..][..|results[1..]| - 1] == results[..|results| - 1][1..];
      assert results[1..][|results[1..]| - 1] == results[|results| - 1];
      LastMatchCons(results[..|results| - 1], region, serviceType);
    } else {
      assert results[..|results| - 1] == [];
      assert results[1..] == [];
    }
  }

  lemma {:induction false} FoldLastWriteWins(results: seq<Result<Slot, Error>>, acc: CatalogMap, c: CatalogMap,
                                             region: Value, serviceType: Value)
    requires Fold(results, acc) == Success(c)
    ensures Lookup(c, region, serviceType) ==
      var m := LastMatch(results, region, serviceType);
      if m.Some? then m else Lookup(acc, region, serviceType)
    decreases |results|
  {
    if results != [] {
      var s := results[0].value;
      FoldLastWriteWins(results[1..], Put(acc, s.0, s.1, s.2), c, region, serviceType);
      LastMatchCons(results, region, serviceType);
    }
  }

  /**
   * Last write wins: in an assembled catalog, the slot (region, type) holds
   * the descriptor of the last endpoint with that region and service type,
   * and is empty when no endpoint has them.
   */
  lemma AssembleLastWriteWins(services: map<string, Service>, endpoints: map<string, Endpoint>,
                              ids: seq<string>, d: Record, acc: CatalogMap, c: CatalogMap,
                              region: Value, serviceType: Value)
    requires Listed(ids, endpoints)
    requires Assemble(services, endpoints, ids, d, acc) == Success(c)
    ensures Lookup(c, region, serviceType) ==
      var m := LastMatch(Entries(services, endpoints, ids, d), region, serviceType);
      if m.Some? then m else Lookup(acc, region, serviceType)
  {
    AssembleIsFold(services, endpoints, ids, d, acc);
    FoldLastWriteWins(Entries(services, endpoints, ids, d), acc, c, region, serviceType);
  }

  /** The position of the first failed entry, if any. */
  predicate FirstFailure(results: seq<Result<Slot, Error>>, i: int)
  {
    0 <= i < |results| && results[i].Failure? && forall j :: 0 <= j < i ==> results[j].Success?
  }

  lemma {:induction false} FoldFailsAtFirstError(results: seq<Result<Slot, Error>>, acc: CatalogMap)
    ensures Fold(results, acc).Failure? <==> exists i :: 0 <= i < |results| && results[i].Failure?
    ensures Fold(results, acc).Failure? ==>
      exists i :: FirstFailure(results, i) && Fold(results, acc).error == results[i].error
    decreases |results|
  {
    if results != [] {
      if results[0].Failure? {
        assert FirstFailure(results, 0);
      } else {
        var s := results[0].value;
        FoldFailsAtFirstError(results[1..], Put(acc, s.0, s.1, s.2));
        if Fold(results, acc).Failure? {
          var i :| FirstFailure(results[1..], i) && Fold(results[1..], Put(acc, s.0, s.1, s.2)).error == results[1..][i].error;
          assert FirstFailure(results, i + 1) by {
            forall j | 0 <= j < i + 1 ensures results[j].Success? {
              if j > 0 { assert results[1..][j - 1] == results[j]; }
            }
          }
        } else {
          forall i | 0 <= i < |results| ensures results[i].Success? {
            if i > 0 { assert results[1..][i - 1] == results[i]; }
          }
        }
      }
    }
  }

  /** Assembly fails exactly when some endpoint's entry fails, with the first such error. */
  lemma AssembleFailsAtFirstError(services: map<string, Service>, endpoints: map<string, Endpoint>,
                                  ids: seq<string>, d: Record, acc: CatalogMap)
    requires Listed(ids, endpoints)
    ensures var results := Entries(services, endpoints, ids, d);
      Assemble(services, endpoints, ids, d, acc).Failure? <==> exists i :: 0 <= i < |results| && results[i].Failure?
    ensures var results := Entries(services, endpoints, ids, d);
      Assemble(services, endpoints, ids, d, acc).Failure? ==>
        exists i :: FirstFailure(results, i) && Assemble(services, endpoints, ids, d, acc).error == results[i].error
  {
    AssembleIsFold(services, endpoints, ids, d, acc);
    FoldFailsAtFirstError(Entries(services, endpoints, ids, d), acc);
  }

  /** An endpoint whose service is stored raises something other than ServiceNotFound, if anything. */
  lemma EntryOfStoredService(services: map<string, Service>, ep: Endpoint, d: Record)
    requires ep.serviceId in services
    ensures Entry(services, ep, d).Failure? ==> !Entry(services, ep, d).error.ServiceNotFound?
  {
  }

  /** When every endpoint names a stored service, assembly never raises ServiceNotFound. */
  lemma AssembleNoDanglingService(services: map<string, Service>, endpoints: map<string, Endpoint>,
                                  ids: seq<string>, d: Record, acc: CatalogMap)
    requires forall i :: 0 <= i < |ids| ==> ids[i] in endpoints && endpoints[ids[i]].serviceId in services
    ensures !(Assemble(services, endpoints, ids, d, acc).Failure? &&
              Assemble(services, endpoints, ids, d, acc).error.ServiceNotFound?)
  {
    AssembleFailsAtFirstError(services, endpoints, ids, d, acc);
    if Assemble(services, endpoints, ids, d, acc).Failure? {
      var results := Entries(services, endpoints, ids, d);
      var i :| FirstFailure(results, i) && Assemble(services, endpoints, ids, d, acc).error == results[i].error;
      EntryOfStoredService(services, endpoints[ids[i]], d);
    }
  }

  /** An endpoint without URLs gets publicURL "" and no internal or admin URL (its service has a name). */
  lemma EntryWithoutUrls(services: map<string, Service>, ep: Endpoint, d: Record)
    requires ep.serviceId in services && "name" in services[ep.serviceId].extra
    requires "publicurl" !in ep.extra && "internalurl" !in ep.extra && "adminurl" !in ep.extra
    ensures Entry(services, ep, d) == Success((ep.region, services[ep.serviceId].serviceType,
      Descriptor(ep.id, services[ep.serviceId].extra["name"], Some(""), None, None)))
  {
    FormatUrl.PlainUrlUnchanged("", d);
  }

  // ----- the backend ------------------------------------------------------------

  class Catalog {
    var services: map<string, Service>
    var serviceOrder: seq<string>
    var endpoints: map<string, Endpoint>
    var endpointOrder: seq<string>

    /** Row orders list each stored id once; every endpoint's service exists. */
    predicate Valid()
      reads this
    {
      Enumerates(serviceOrder, services.Keys) &&
      Enumerates(endpointOrder, endpoints.Keys) &&
      (forall id :: id in services ==> services[id].id == id) &&
      (forall id :: id in endpoints ==> endpoints[id].id == id && endpoints[id].serviceId in services)
    }

    constructor ()
      ensures Valid()
      ensures services == map[] && endpoints == map[]
    {
      services := map[];
      serviceOrder := [];
      endpoints := map[];
      endpointOrder := [];
    }

    /** list_services: the id of every stored service, once each, in row order. */
    function ListServices(): (ids: seq<string>)
      reads this
      requires Valid()
      ensures Distinct(ids) && forall id :: id in ids <==> id in services
    {
      serviceOrder
    }

    /** list_endpoints: the id of every stored endpoint, once each, in row order. */
    function ListEndpoints(): (ids: seq<string>)
      reads this
      requires Valid()
      ensures Distinct(ids) && forall id :: id in ids <==> id in endpoints
    {
      endpointOrder
    }

    /** get_service: the stored service as a dictionary, or ServiceNotFound. */
    function GetService(id: string): (r: Result<Record, Error>)
      reads this
      ensures r.Success? <==> id in services
      ensures r.Failure? ==> r.error == ServiceNotFound(VStr(id))
      ensures r.Success? ==> r.value == ServiceToDict(services[id])
    {
      if id in services then Success(ServiceToDict(services[id])) else Failure(ServiceNotFound(VStr(id)))
    }

    /** get_endpoint: the stored endpoint as a dictionary, or EndpointNotFound. */
    function GetEndpoint(id: string): (r: Result<Record, Error>)
      reads this
      ensures r.Success? <==> id in endpoints
      ensures r.Failure? ==> r.error == EndpointNotFound(id)
      ensures r.Success? ==> r.value == EndpointToDict(endpoints[id])
    {
      if id in endpoints then Success(EndpointToDict(endpoints[id])) else Failure(EndpointNotFound(id))
    }

    /**
     * create_service: insert the service row; an id already in use violates the
     * primary key and the raw IntegrityError propagates.
     */
    method CreateService(serviceId: string, ref: Record) returns (r: Result<Record, Error>)
      requires Valid()
      requires "id" in ref && ref["id"] == VStr(serviceId)
      modifies this
      ensures Valid()
      ensures serviceId in old(services) ==> r == Failure(IntegrityError) && unchanged(this)
      ensures serviceId !in old(services) ==>
        && services == old(services)[serviceId := ServiceFromDict(serviceId, ref)]
        && serviceOrder == old(serviceOrder) + [serviceId]
        && endpoints == old(endpoints) && endpointOrder == old(endpointOrder)
        && r == Success(ServiceToDict(ServiceFromDict(serviceId, ref)))
        && GetService(serviceId) == r
    {
      if serviceId in services {
        return Failure(IntegrityError);
      }
      var s := ServiceFromDict(serviceId, ref);
      services := services[serviceId := s];
      serviceOrder := serviceOrder + [serviceId];
      r := Success(ServiceToDict(s));
    }

    /**
     * delete_service: in one transaction, delete the service's endpoints and
     * then the service; a missing service raises ServiceNotFound and rolls
     * the endpoint deletion back.
     */
    method DeleteService(serviceId: string) returns (r: Outcome<Error>)
      requires Valid()
      modifies this
      ensures Valid()
      ensures serviceId !in old(services) ==> r == Fail(ServiceNotFound(VStr(serviceId))) && unchanged(this)
      ensures serviceId in old(services) ==>
        && r == Pass
        && services == old(services) - {serviceId}
        && serviceOrder == Remove(old(serviceOrder), serviceId)
        && endpoints == EndpointsNotOf(old(endpoints), serviceId)
        && endpointOrder == OrderNotOf(old(endpointOrder), old(endpoints), serviceId)
    {
      if serviceId !in services {
        return Fail(ServiceNotFound(VStr(serviceId)));
      }
      endpointOrder := OrderNotOf(endpointOrder, endpoints, serviceId);
      endpoints := EndpointsNotOf(endpoints, serviceId);
      services := services - {serviceId};
      serviceOrder := Remove(serviceOrder, serviceId);
      r := Pass;
    }

    /**
     * create_endpoint: look the service up first (KeyError without a
     * service_id, ServiceNotFound for an unknown one), then insert the row;
     * an id already in use raises IntegrityError.
     */
    method CreateEndpoint(endpointId: string, ref: Record) returns (r: Result<Record, Error>)
      requires Valid()
      requires "id" in ref && ref["id"] == VStr(endpointId)
      modifies this
      ensures Valid()
      ensures "service_id" !in ref ==> r == Failure(KeyError("service_id")) && unchanged(this)
      ensures "service_id" in ref && !(ref["service_id"].VStr? && ref["service_id"].s in old(services)) ==>
        r == Failure(ServiceNotFound(ref["service_id"])) && unchanged(this)
      ensures "service_id" in ref && ref["service_id"].VStr? && ref["service_id"].s in old(services) ==>
        if endpointId in old(endpoints) then r == Failure(IntegrityError) && unchanged(this)
        else
          && endpoints == old(endpoints)[endpointId := EndpointFromDict(endpointId, ref["service_id"].s, ref)]
          && endpointOrder == old(endpointOrder) + [endpointId]
          && services == old(services) && serviceOrder == old(serviceOrder)
          && r == Success(EndpointToDict(EndpointFromDict(endpointId, ref["service_id"].s, ref)))
          && GetEndpoint(endpointId) == r
    {
      if "service_id" !in ref {
        return Failure(KeyError("service_id"));
      }
      var sid := ref["service_id"];
      if !(sid.VStr? && sid.s in services) {
        return Failure(ServiceNotFound(sid));
      }
      if endpointId in endpoints {
        return Failure(IntegrityError);
      }
      var e := EndpointFromDict(endpointId, sid.s, ref);
      endpoints := endpoints[endpointId := e];
      endpointOrder := endpointOrder + [endpointId];
      r := Success(EndpointToDict(e));
    }

    /** delete_endpoint: remove the row, or raise EndpointNotFound. */
    method DeleteEndpoint(endpointId: string) returns (r: Outcome<Error>)
      requires Valid()
      modifies this
      ensures Valid()
      ensures endpointId !in old(endpoints) ==> r == Fail(EndpointNotFound(endpointId)) && unchanged(this)
      ensures endpointId in old(endpoints) ==>
        && r == Pass
        && endpoints == old(endpoints) - {endpointId}
        && endpointOrder == Remove(old(endpointOrder), endpointId)
        && services == old(services) && serviceOrder == old(serviceOrder)
    {
      if endpointId !in endpoints {
        return Fail(EndpointNotFound(endpointId));
      }
      endpoints := endpoints - {endpointId};
      endpointOrder := Remove(endpointOrder, endpointId);
      r := Pass;
    }

    /**
     * get_catalog: format every endpoint, in row order, into
     * catalog[region][type]; a later endpoint overwrites an earlier one with
     * the same region and type, and the first failing endpoint aborts.
     */
    method GetCatalog(userId: Value, tenantId: Value, conf: Record) returns (r: Result<CatalogMap, Error>)
      requires Valid()
      ensures r == Assemble(services, endpoints, endpointOrder, TemplateVars(conf, userId, tenantId), map[])
      ensures !(r.Failure? && r.error.ServiceNotFound?)
    {
      var d := TemplateVars(conf, userId, tenantId);
      var ids := ListEndpoints();
      var svcs, eps := services, endpoints;
      assert Listed(ids, eps);
      AssembleNoDanglingService(svcs, eps, ids, d, map[]);
      var catalog: CatalogMap := map[];
      var i := 0;
      while i < |ids|
        invariant 0 <= i <= |ids|
        invariant Listed(ids[i..], eps)
        invariant Assemble(svcs, eps, ids[i..], d, catalog) == Assemble(svcs, eps, ids, d, map[])
      {
        AssembleFirst(svcs, eps, ids[i..], d, catalog);
        var entry := Entry(svcs, eps[ids[i]], d);
        if entry.Failure? {
          return Failure(entry.error);
        }
        assert ids[i..][1..] == ids[i + 1..];
        catalog := Put(catalog, entry.value.0, entry.value.1, entry.value.2);
        i := i + 1;
      }
      r := Success(catalog);
      AssembleNoDanglingService(services, endpoints, ids, d, map[]);
    }
  }

  /** The endpoint rows that do not belong to the service. */
  function EndpointsNotOf(endpoints: map<string, Endpoint>, serviceId: string): (r: map<string, Endpoint>)
    ensures forall id :: id in r <==> id in endpoints && endpoints[id].serviceId != serviceId
    ensures forall id :: id in r ==> r[id] == endpoints[id]
  {
    map id | id in endpoints && endpoints[id].serviceId != serviceId :: endpoints[id]
  }

  /** The row order of the endpoints that do not belong to the service. */
  function OrderNotOf(order: seq<string>, endpoints: map<string, Endpoint>, serviceId: string): (r: seq<string>)
    ensures forall id :: id in r <==> id in order && id in endpoints && endpoints[id].serviceId != serviceId
    ensures Distinct(order) ==> Distinct(r)
  {
    if order == [] then []
    else
      (if order[0] in endpoints && endpoints[order[0]].serviceId != serviceId then [order[0]] else [])
      + OrderNotOf(order[1..], endpoints, serviceId)
  }
}
