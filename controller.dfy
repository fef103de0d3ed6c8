/**
 * The request helpers of the version 3 controllers: page slicing, required
 * attributes, id checks, id assignment and filtering by a query-string
 * attribute. A request's query string is a mapping from names to values.
 */
module Controller {
  import opened Wrappers
  import opened Values
  import opened Collections

  const DefaultPage: int := 1
  const DefaultPerPage: int := 30

  // ----- _paginate ----------------------------------------------------------------

  /**
   * _paginate as written: `refs[per_page * (page - 1):per_page * page]` on
   * the raw query values. Python arithmetic succeeds only on numbers (a
   * string page cannot subtract 1; a string per_page repeats into a string,
   * which is no slice index), so anything else is a TypeError.
   */
  function PaginateAsWritten(refs: seq<Record>, query: Record): (r: Result<seq<Record>, Error>)
    ensures r.Success? <==> IsNumber(DictGet(query, "page", VInt(DefaultPage))) && IsNumber(DictGet(query, "per_page", VInt(DefaultPerPage)))
    ensures r.Failure? ==> r.error == TypeError
    ensures r.Success? ==>
      var page := NumberOf(DictGet(query, "page", VInt(DefaultPage)));
      var perPage := NumberOf(DictGet(query, "per_page", VInt(DefaultPerPage)));
      r.value == PageSlice(refs, page, perPage)
  {
    var page := DictGet(query, "page", VInt(DefaultPage));
    var perPage := DictGet(query, "per_page", VInt(DefaultPerPage));
    if !IsNumber(page) || !IsNumber(perPage) then Failure(TypeError)
    else
      var p := NumberOf(page);
      var q := NumberOf(perPage);
      Success(PageSlice(refs, p, q))
  }

  /** Query strings carry text: asking for page "2" fails instead of paging. */
  lemma PaginateAsWrittenRejectsText(refs: seq<Record>)
    ensures PaginateAsWritten(refs, map["page" := VStr("2")]) == Failure(TypeError)
    ensures PaginateAsWritten(refs, map["per_page" := VStr("10")]) == Failure(TypeError)
  {
  }

  /** A query value read as an integer the way `int()` reads it. */
  function IntParam(query: Record, key: string, default: int): (r: Result<int, Error>)
    ensures key !in query ==> r == Success(default)
    ensures key in query && query[key].VStr? ==>
      (r.Success? <==> ParseInt(query[key].s).Some?) && (r.Success? ==> r.value == ParseInt(query[key].s).value)
    ensures key in query && IsNumber(query[key]) ==> r == Success(NumberOf(query[key]))
    ensures r.Failure? ==> r.error == ValidationError(key)
  {
    if key !in query then Success(default)
    else match query[key]
      case VStr(s) => (match ParseInt(s) case Some(i) => Success(i) case None => Failure(ValidationError(key)))
      case VInt(i) => Success(i)
      case VBool(b) => Success(if b then 1 else 0)
      case _ => Failure(ValidationError(key))
  }

  /** _paginate as intended: page and per_page read as integers first. */
  function Paginate(refs: seq<Record>, query: Record): (r: Result<seq<Record>, Error>)
    ensures r.Success? <==> IntParam(query, "page", DefaultPage).Success? && IntParam(query, "per_page", DefaultPerPage).Success?
    ensures r.Success? ==>
      var page := IntParam(query, "page", DefaultPage).value;
      var perPage := IntParam(query, "per_page", DefaultPerPage).value;
      r.value == PageSlice(refs, page, perPage)
  {
    var page :- IntParam(query, "page", DefaultPage);
    var perPage :- IntParam(query, "per_page", DefaultPerPage);
    Success(PageSlice(refs, page, perPage))
  }

  /** `refs[per_page * (page - 1):per_page * page]`. */
  function PageSlice(refs: seq<Record>, page: int, perPage: int): seq<Record>
  {
    PySlice(refs, Some(perPage * (page - 1)), Some(perPage * page))
  }

  /** Page `page` (from 1) of `perPage` refs each, clipped to the list. */
  function Page(refs: seq<Record>, page: nat, perPage: nat): seq<Record>
    requires page >= 1
  {
    var lo := if perPage * (page - 1) <= |refs| then perPage * (page - 1) else |refs|;
    var hi := if perPage * page <= |refs| then perPage * page else |refs|;
    refs[lo..hi]
  }

  /** Textual page numbers now page as they should: page p holds refs [q(p-1), qp). */
  lemma PaginateIsPage(refs: seq<Record>, page: nat, perPage: nat)
    requires page >= 1
    ensures Paginate(refs, map["page" := VStr(IntToString(page)), "per_page" := VStr(IntToString(perPage))])
      == Success(Page(refs, page, perPage))
  {
    ParseIntOfIntToString(page);
    ParseIntOfIntToString(perPage);
    var q := map["page" := VStr(IntToString(page)), "per_page" := VStr(IntToString(perPage))];
    assert IntParam(q, "page", DefaultPage) == Success(page);
    assert IntParam(q, "per_page", DefaultPerPage) == Success(perPage);
    PageBoundsOrdered(page, perPage);
    SliceIsPage(refs, page, perPage);
  }

  lemma PageBoundsOrdered(page: nat, perPage: nat)
    requires page >= 1
    ensures 0 <= perPage * (page - 1) <= perPage * page
    ensures perPage * page == perPage * (page - 1) + perPage
  {
  }

  lemma SliceIsPage(refs: seq<Record>, page: nat, perPage: nat)
    requires page >= 1
    ensures PageSlice(refs, page, perPage) == Page(refs, page, perPage)
  {
    PageBoundsOrdered(page, perPage);
  }

  /** A page never holds more than per_page refs. */
  lemma PageLength(refs: seq<Record>, page: nat, perPage: nat)
    requires page >= 1
    ensures |Page(refs, page, perPage)| <= perPage
  {
    assert perPage * page == perPage * (page - 1) + perPage;
  }

  /** Pages 1..n laid end to end are the first n*per_page refs (clipped): no ref is skipped or repeated. */
  lemma {:induction false} PagesTile(refs: seq<Record>, n: nat, perPage: nat)
    ensures Pages(refs, n, perPage) == refs[..if perPage * n <= |refs| then perPage * n else |refs|]
  {
    if n > 0 {
      PagesTile(refs, n - 1, perPage);
      assert perPage * n == perPage * (n - 1) + perPage;
    }
  }

  /** The concatenation of pages 1..n. */
  function Pages(refs: seq<Record>, n: nat, perPage: nat): seq<Record>
  {
    if n == 0 then [] else Pages(refs, n - 1, perPage) + Page(refs, n, perPage)
  }

  // ----- _require_attribute, _require_matching_id, _assign_unique_id -----------------

  /** _require_attribute: the attribute must be present, not None and not ''. */
  function RequireAttribute(ref: Record, attr: string): (r: Outcome<Error>)
    ensures r.Pass? <==> attr in ref && ref[attr] != VNone && ref[attr] != VStr("")
    ensures r.Fail? ==> r.error == ValidationError(attr + " field is required and cannot be empty")
  {
    var v := DictGet(ref, attr, VNone);
    if v == VNone || PyEq(v, VStr("")) then Fail(ValidationError(attr + " field is required and cannot be empty"))
    else Pass
  }

  /** _require_matching_id: an id in the ref must equal the value (by Python equality). */
  function RequireMatchingId(value: Value, ref: Record): (r: Outcome<Error>)
    ensures r.Fail? <==> "id" in ref && !PyEq(ref["id"], value)
    ensures r.Fail? ==> r.error == ValidationError("Cannot change ID")
    ensures "id" !in ref ==> r.Pass?
  {
    if "id" in ref && !PyEq(ref["id"], value) then Fail(ValidationError("Cannot change ID")) else Pass
  }

  /** A ref always matches its own id. */
  lemma RequireMatchingOwnId(ref: Record)
    requires "id" in ref
    ensures RequireMatchingId(ref["id"], ref) == Pass
  {
    PyEqReflexive(ref["id"]);
  }

  /** _assign_unique_id: a copy carrying the fresh id, every other key kept. */
  function AssignUniqueId(ref: Record, freshId: string): (r: Record)
    ensures r.Keys == ref.Keys + {"id"}
    ensures r["id"] == VStr(freshId)
    ensures forall k :: k in ref && k != "id" ==> r[k] == ref[k]
  {
    ref["id" := VStr(freshId)]
  }

  /** An assigned id always passes the matching-id check against itself. */
  lemma AssignedIdMatches(ref: Record, freshId: string)
    ensures RequireMatchingId(VStr(freshId), AssignUniqueId(ref, freshId)) == Pass
  {
  }

  // ----- _filter_by_attribute ---------------------------------------------------------

  /**
   * `[r for r in refs if keep(r[attr])]`: a ref without the attribute raises
   * KeyError. The test is a parameter so that the lemmas below need not
   * unfold Python equality.
   */
  function KeepWhere(refs: seq<Record>, attr: string, keep: Value -> bool): (r: Result<seq<Record>, Error>)
    ensures r.Failure? ==> r.error == KeyError(attr)
    ensures r.Success? ==> |r.value| <= |refs|
  {
    if refs == [] then Success([])
    else if attr !in refs[0] then Failure(KeyError(attr))
    else
      var rest :- KeepWhere(refs[1..], attr, keep);
      Success(if keep(refs[0][attr]) then [refs[0]] + rest else rest)
  }

  /** `[r for r in refs if r[attr] == value]`, with Python equality. */
  function KeepMatching(refs: seq<Record>, attr: string, value: Value): (r: Result<seq<Record>, Error>)
    ensures r.Failure? ==> r.error == KeyError(attr)
    ensures r.Success? ==> |r.value| <= |refs|
  {
    KeepWhere(refs, attr, v => PyEq(v, value))
  }

  /** The filter raises exactly when some ref lacks the attribute. */
  lemma {:induction false} KeepWhereSucceeds(refs: seq<Record>, attr: string, keep: Value -> bool)
    ensures KeepWhere(refs, attr, keep).Success? <==> forall x :: x in refs ==> attr in x
  {
    if refs != [] {
      KeepWhereSucceeds(refs[1..], attr, keep);
      assert forall x :: x in refs <==> x == refs[0] || x in refs[1..];
    }
  }

  /** The filter keeps exactly the refs whose attribute passes the test. */
  lemma {:induction false} KeepWhereMembers(refs: seq<Record>, attr: string, keep: Value -> bool)
    requires KeepWhere(refs, attr, keep).Success?
    ensures forall x :: x in KeepWhere(refs, attr, keep).value <==> x in refs && attr in x && keep(x[attr])
  {
    if refs != [] {
      KeepWhereMembers(refs[1..], attr, keep);
      assert forall x :: x in refs <==> x == refs[0] || x in refs[1..];
    }
  }

  /** Filtering keeps the order: the filter of a concatenation is the concatenation of the filters. */
  lemma {:induction false} KeepWhereAppend(a: seq<Record>, b: seq<Record>, attr: string, keep: Value -> bool)
    requires KeepWhere(a, attr, keep).Success? && KeepWhere(b, attr, keep).Success?
    ensures KeepWhere(a + b, attr, keep) == Success(KeepWhere(a, attr, keep).value + KeepWhere(b, attr, keep).value)
  {
    var y := KeepWhere(b, attr, keep).value;
    if a == [] {
      assert a + b == b;
      assert KeepWhere(a, attr, keep).value == [];
      assert [] + y == y;
    } else {
      var ab := a + b;
      assert ab[0] == a[0] && ab[1..] == a[1..] + b;
      KeepWhereAppend(a[1..], b, attr, keep);
      var x := KeepWhere(a[1..], attr, keep).value;
      if keep(a[0][attr]) {
        assert [a[0]] + (x + y) == ([a[0]] + x) + y;
      }
    }
  }

  /** Filtering a filtered list changes nothing. */
  lemma {:induction false} KeepWhereIdempotent(refs: seq<Record>, attr: string, keep: Value -> bool)
    requires KeepWhere(refs, attr, keep).Success?
    ensures KeepWhere(KeepWhere(refs, attr, keep).value, attr, keep) == KeepWhere(refs, attr, keep)
  {
    if refs != [] {
      KeepWhereIdempotent(refs[1..], attr, keep);
    }
  }

  /** The Python-equality filter keeps exactly the matching refs, in their order. */
  lemma KeepMatchingMembers(refs: seq<Record>, attr: string, value: Value)
    requires KeepMatching(refs, attr, value).Success?
    ensures forall x :: x in KeepMatching(refs, attr, value).value <==> x in refs && attr in x && PyEq(x[attr], value)
  {
    KeepWhereMembers(refs, attr, v => PyEq(v, value));
  }

  /** _filter_by_attribute: filter when the query names the attribute, else the refs as they are. */
  function FilterByAttribute(query: Record, refs: seq<Record>, attr: string): (r: Result<seq<Record>, Error>)
    ensures attr !in query ==> r == Success(refs)
    ensures attr in query ==> r == KeepMatching(refs, attr, query[attr])
  {
    if attr in query then KeepMatching(refs, attr, query[attr]) else Success(refs)
  }
}
