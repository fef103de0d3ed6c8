/**
 * The LDAP wrapper shared by the directory-backed drivers: decoding of
 * directory values, the attribute map read from the `[ldap]` section of the
 * configuration, search filters, and the lookups by DN, by name and for all
 * entries, plus simple-bind authentication.
 *
 * The directory server is a value: the entries it holds (DN to attribute
 * lists), the order in which a search returns them, and the questions only
 * the server or the client library can answer (does a DN parse, does an
 * entry match a filter, is an entry below a base, does a bind succeed, may
 * an anonymous connection search).
 */
module Ldap {
  import opened Wrappers
  import opened Values
  import opened Collections

  const DefaultTreeDn: string := "ou=Users,dc=example,dc=com"
  const DefaultIdAttr: string := "uid"
  const DefaultObjectClass: string := "top"

  // ----- ldap2py ------------------------------------------------------------------

  /** ldap2py: 'TRUE' and 'FALSE' become bools, an int()-parsable string an int, anything else stays text. */
  function Ldap2Py(s: string): (v: Value)
    ensures v.VBool? <==> s == "TRUE" || s == "FALSE"
    ensures v.VBool? ==> v.b == (s == "TRUE")
    ensures v.VInt? <==> s != "TRUE" && s != "FALSE" && ParseInt(s).Some?
    ensures v.VInt? ==> ParseInt(s) == Some(v.i)
    ensures v.VBool? || v.VInt? || v == VStr(s)
  {
    if s == "TRUE" then VBool(true)
    else if s == "FALSE" then VBool(false)
    else match ParseInt(s)
      case Some(i) => VInt(i)
      case None => VStr(s)
  }

  /** A number stored in the directory as its decimal text comes back as that number. */
  lemma Ldap2PyOfInt(i: int)
    ensures Ldap2Py(IntToString(i)) == VInt(i)
  {
    ParseIntOfIntToString(i);
    var s := IntToString(i);
    assert s[0] == '-' || IsDigit(s[0]);
    assert s != "TRUE" && s != "FALSE" by {
      assert "TRUE"[0] == 'T' && "FALSE"[0] == 'F';
    }
  }

  /** Text without a digit (other than the two boolean words) is returned unchanged. */
  lemma Ldap2PyOfText(s: string)
    requires forall i :: 0 <= i < |s| ==> !IsDigit(s[i])
    requires s != "TRUE" && s != "FALSE"
    ensures Ldap2Py(s) == VStr(s)
  {
    ParseIntNeedsDigit(s);
  }

  /** `map(ldap2py, values)`. */
  function DecodeValues(vs: seq<string>): (r: seq<Value>)
    ensures |r| == |vs|
    ensures forall i :: 0 <= i < |vs| ==> r[i] == Ldap2Py(vs[i])
  {
    seq(|vs|, i requires 0 <= i < |vs| => Ldap2Py(vs[i]))
  }

  // ----- Configuration and the shared attribute map ---------------------------------

  /** The `[ldap]` configuration section: its option names in order and their values. */
  datatype LdapConf = LdapConf(
    keys: seq<string>,
    values: map<string, Option<string>>,
    defaultTenant: Option<string>,
    defaultRoles: seq<string>)

  /** `getattr(conf.ldap, key)`: an unset option is None. */
  function ConfValue(conf: LdapConf, key: string): Option<string>
  {
    if key in conf.values then conf.values[key] else None
  }

  /** `value or default` on an optional string. */
  function OrDefault(o: Option<string>, default: string): (r: string)
    ensures TruthyStr(o) ==> r == o.value
    ensures !TruthyStr(o) ==> r == default
  {
    if TruthyStr(o) then o.value else default
  }

  /** Python's `sub in s` on strings. */
  predicate Contains(s: string, sub: string)
    decreases |s|
  {
    |sub| <= |s| && (s[..|sub|] == sub || (s != [] && Contains(s[1..], sub)))
  }

  /** The index just after the last underscore among the first i characters (0 when there is none). */
  function SegmentStart(s: string, i: nat): (r: nat)
    requires i <= |s|
    ensures r <= i
    ensures forall j :: r <= j < i ==> s[j] != '_'
    ensures r == 0 || s[r - 1] == '_'
  {
    if i == 0 then 0 else if s[i - 1] == '_' then i else SegmentStart(s, i - 1)
  }

  /** `s.split('_')[-1]`: the part after the last underscore (all of s when there is none). */
  function LastSegment(s: string): (r: string)
    ensures |r| <= |s| && s[|s| - |r|..] == r
    ensures forall i :: 0 <= i < |r| ==> r[i] != '_'
    ensures |r| == |s| || s[|s| - |r| - 1] == '_'
  {
    s[SegmentStart(s, |s|)..]
  }

  /** One step of the attribute-map loop: a matching option with a non-empty value maps its last segment. */
  function MapStep(entries: map<string, string>, prefix: string, key: string, conf: LdapConf): map<string, string>
  {
    if Contains(key, prefix) && TruthyStr(ConfValue(conf, key))
    then entries[LastSegment(key) := ConfValue(conf, key).value]
    else entries
  }

  /** The attribute-map loop of the wrapper's constructor, over the option names in order. */
  function InitMapping(entries: map<string, string>, prefix: string, keys: seq<string>, conf: LdapConf): map<string, string>
    decreases |keys|
  {
    if keys == [] then entries
    else InitMapping(MapStep(entries, prefix, keys[0], conf), prefix, keys[1..], conf)
  }

  /** Writing a key after an overlay is the overlay of the write. */
  lemma OverlayUpdate<K, V>(base: map<K, V>, m: map<K, V>, k: K, v: V)
    ensures (base + m)[k := v] == base + m[k := v]
  {
  }

  lemma MapStepOverlay(base: map<string, string>, entries: map<string, string>, prefix: string, key: string, conf: LdapConf)
    ensures MapStep(base + entries, prefix, key, conf) == base + MapStep(entries, prefix, key, conf)
  {
    if Contains(key, prefix) && TruthyStr(ConfValue(conf, key)) {
      OverlayUpdate(base, entries, LastSegment(key), ConfValue(conf, key).value);
    }
  }

  /** The loop's own updates laid over whatever the map held before. */
  lemma {:induction false} InitMappingOverlay(base: map<string, string>, entries: map<string, string>, prefix: string, keys: seq<string>, conf: LdapConf)
    ensures InitMapping(base + entries, prefix, keys, conf) == base + InitMapping(entries, prefix, keys, conf)
    decreases |keys|
  {
    if keys != [] {
      MapStepOverlay(base, entries, prefix, keys[0], conf);
      InitMappingOverlay(base, MapStep(entries, prefix, keys[0], conf), prefix, keys[1..], conf);
    }
  }

  /** Whether some option of the loop writes the attribute `attr`. */
  predicate Writes(prefix: string, keys: seq<string>, conf: LdapConf, attr: string)
  {
    exists i :: 0 <= i < |keys| && Contains(keys[i], prefix) && TruthyStr(ConfValue(conf, keys[i])) && LastSegment(keys[i]) == attr
  }

  /**
   * The map is shared by every wrapper: an attribute mapped by an earlier
   * wrapper (the user wrapper, say) and not written by this one stays in
   * the map this wrapper reads.
   */
  lemma {:induction false} SharedMappingCarriesOver(entries: map<string, string>, prefix: string, keys: seq<string>, conf: LdapConf, attr: string)
    requires attr in entries
    requires !Writes(prefix, keys, conf, attr)
    ensures attr in InitMapping(entries, prefix, keys, conf)
    ensures InitMapping(entries, prefix, keys, conf)[attr] == entries[attr]
    decreases |keys|
  {
    if keys != [] {
      WritesTail(prefix, keys, conf, attr);
      var next := MapStep(entries, prefix, keys[0], conf);
      assert attr in next && next[attr] == entries[attr];
      SharedMappingCarriesOver(next, prefix, keys[1..], conf, attr);
    }
  }

  lemma WritesTail(prefix: string, keys: seq<string>, conf: LdapConf, attr: string)
    requires keys != [] && !Writes(prefix, keys, conf, attr)
    ensures !Writes(prefix, keys[1..], conf, attr)
    ensures !(Contains(keys[0], prefix) && TruthyStr(ConfValue(conf, keys[0])) && LastSegment(keys[0]) == attr)
  {
    forall i | 0 <= i < |keys[1..]|
      ensures !(Contains(keys[1..][i], prefix) && TruthyStr(ConfValue(conf, keys[1..][i])) && LastSegment(keys[1..][i]) == attr)
    {
      assert keys[1..][i] == keys[i + 1];
    }
  }

  /** Constructing a second wrapper of the same kind leaves the shared map as the first left it. */
  lemma InitMappingIdempotent(entries: map<string, string>, prefix: string, keys: seq<string>, conf: LdapConf)
    ensures InitMapping(InitMapping(entries, prefix, keys, conf), prefix, keys, conf) == InitMapping(entries, prefix, keys, conf)
  {
    var u := InitMapping(map[], prefix, keys, conf);
    assert entries + map[] == entries;
    InitMappingOverlay(entries, map[], prefix, keys, conf);
    var once := entries + u;
    assert once + map[] == once;
    InitMappingOverlay(once, map[], prefix, keys, conf);
    assert (entries + u) + u == entries + u;
  }

  /** The class-level `attribute_mapping` dictionary: one object that every wrapper updates and reads. */
  class AttributeMapping {
    var entries: map<string, string>

    constructor ()
      ensures entries == map[]
    {
      entries := map[];
    }
  }

  /** What a wrapper's lookups read: its credentials, tree, id attribute, object class and the map. */
  datatype Settings = Settings(
    user: Option<string>,
    password: Option<string>,
    treeDn: string,
    idAttr: string,
    objectClass: string,
    mapping: map<string, string>)

  /** A wrapper for one kind of entry (`options_name` is "user" for users, "ec2" for credentials). */
  class LdapWrapper {
    const optionsName: string
    const user: Option<string>
    const password: Option<string>
    const treeDn: string
    const idAttr: string
    const objectClass: string
    const attributeMapping: AttributeMapping

    /** __init__: reads the options for `optionsName` and adds its attribute mappings to the shared map. */
    constructor (optionsName: string, conf: LdapConf, shared: AttributeMapping)
      modifies shared
      ensures this.optionsName == optionsName && attributeMapping == shared
      ensures user == ConfValue(conf, "user") && password == ConfValue(conf, "password")
      ensures treeDn == OrDefault(ConfValue(conf, optionsName + "_tree_dn"), DefaultTreeDn)
      ensures idAttr == OrDefault(ConfValue(conf, optionsName + "_id_attribute"), DefaultIdAttr)
      ensures objectClass == OrDefault(ConfValue(conf, optionsName + "_objectclass"), DefaultObjectClass)
      ensures shared.entries == InitMapping(old(shared.entries), optionsName + "_attrmap_", conf.keys, conf)
    {
      this.optionsName := optionsName;
      user := ConfValue(conf, "user");
      password := ConfValue(conf, "password");
      treeDn := OrDefault(ConfValue(conf, optionsName + "_tree_dn"), DefaultTreeDn);
      idAttr := OrDefault(ConfValue(conf, optionsName + "_id_attribute"), DefaultIdAttr);
      objectClass := OrDefault(ConfValue(conf, optionsName + "_objectclass"), DefaultObjectClass);
      attributeMapping := shared;
      new;
      var prefix := optionsName + "_attrmap_";
      var i := 0;
      while i < |conf.keys|
        invariant 0 <= i <= |conf.keys|
        invariant InitMapping(shared.entries, prefix, conf.keys[i..], conf) == InitMapping(old(shared.entries), prefix, conf.keys, conf)
      {
        var key := conf.keys[i];
        assert conf.keys[i..][1..] == conf.keys[i + 1..];
        var m := ConfValue(conf, key);
        if Contains(key, prefix) && TruthyStr(m) {
          shared.entries := shared.entries[LastSegment(key) := m.value];
        }
        i := i + 1;
      }
      assert conf.keys[i..] == [];
    }

    /** The wrapper's configuration together with the shared map as it stands now. */
    function Config(): (s: Settings)
      reads attributeMapping
      ensures s.mapping == attributeMapping.entries && s.treeDn == treeDn && s.idAttr == idAttr
    {
      Settings(user, password, treeDn, idAttr, objectClass, attributeMapping.entries)
    }
  }

  // ----- Search filters (section 3 of RFC 4515) -------------------------------------

  /** The characters escape_filter_chars rewrites as a backslash and two hex digits. */
  predicate FilterSpecial(c: char)
  {
    c == '\\' || c == '*' || c == '(' || c == ')' || c == '\0'
  }

  function EscapeChar(c: char): (r: string)
    ensures FilterSpecial(c) ==> |r| == 3 && r[0] == '\\'
    ensures !FilterSpecial(c) ==> r == [c]
  {
    if c == '\\' then "\\5c"
    else if c == '*' then "\\2a"
    else if c == '(' then "\\28"
    else if c == ')' then "\\29"
    else if c == '\0' then "\\00"
    else [c]
  }

  /** ldap.filter.escape_filter_chars: each special character becomes its `\hh` escape. */
  function Escape(s: string): (r: string)
    ensures forall i :: 0 <= i < |r| ==> r[i] == '\\' || !FilterSpecial(r[i])
    ensures |r| >= |s|
  {
    if s == [] then [] else EscapeChar(s[0]) + Escape(s[1..])
  }

  /** The value a filter assertion stands for: `\hh` escapes read back. */
  function Unescape(s: string): string
  {
    if |s| >= 3 && s[0] == '\\' && s[1..3] == "5c" then ['\\'] + Unescape(s[3..])
    else if |s| >= 3 && s[0] == '\\' && s[1..3] == "2a" then ['*'] + Unescape(s[3..])
    else if |s| >= 3 && s[0] == '\\' && s[1..3] == "28" then ['('] + Unescape(s[3..])
    else if |s| >= 3 && s[0] == '\\' && s[1..3] == "29" then [')'] + Unescape(s[3..])
    else if |s| >= 3 && s[0] == '\\' && s[1..3] == "00" then ['\0'] + Unescape(s[3..])
    else if s == [] then []
    else [s[0]] + Unescape(s[1..])
  }

  lemma UnescapeStep(c: char, rest: string)
    ensures Unescape(EscapeChar(c) + rest) == [c] + Unescape(rest)
  {
    var e := EscapeChar(c) + rest;
    if FilterSpecial(c) {
      assert e[1..3] == EscapeChar(c)[1..3];
      assert e[3..] == rest;
    } else {
      assert e[0] == c && e[1..] == rest;
    }
  }

  /** Escaping loses nothing: the server reads back exactly the name that was asked for. */
  lemma {:induction false} UnescapeEscape(s: string)
    ensures Unescape(Escape(s)) == s
  {
    if s != [] {
      UnescapeStep(s[0], Escape(s[1..]));
      UnescapeEscape(s[1..]);
      assert [s[0]] + s[1..] == s;
    }
  }

  /** The nesting change of one character. */
  function ParenStep(c: char): int
  {
    if c == '(' then 1 else if c == ')' then -1 else 0
  }

  /** The parenthesis depth after reading s from depth d, or -1 once a ')' closes nothing. */
  function Scan(s: string, d: int): (r: int)
    ensures r >= -1
    decreases |s|
  {
    if d < 0 then -1
    else if s == [] then d
    else Scan(s[1..], d + ParenStep(s[0]))
  }

  /** Every ')' closes an earlier '(' and every '(' is closed. */
  predicate Balanced(s: string)
  {
    Scan(s, 0) == 0
  }

  predicate ParenFree(s: string)
  {
    forall i :: 0 <= i < |s| ==> s[i] != '(' && s[i] != ')'
  }

  lemma {:induction false} ScanAppend(a: string, b: string, d: int)
    ensures Scan(a + b, d) == Scan(b, Scan(a, d))
    decreases |a|
  {
    if d >= 0 && a != [] {
      assert (a + b)[0] == a[0];
      assert (a + b)[1..] == a[1..] + b;
      ScanAppend(a[1..], b, d + ParenStep(a[0]));
    } else if d >= 0 {
      assert a + b == b;
    }
  }

  lemma {:induction false} ScanParenFree(s: string, d: int)
    requires ParenFree(s) && d >= 0
    ensures Scan(s, d) == d
    decreases |s|
  {
    if s != [] {
      ScanParenFree(s[1..], d);
    }
  }

  /** `'(' + body + ')'` is balanced whenever body is. */
  lemma {:induction false} ScanWrap(body: string)
    requires Balanced(body)
    ensures Balanced("(" + body + ")")
  {
    ScanAppend("(" + body, ")", 0);
    ScanAppend("(", body, 0);
    assert Scan("(", 0) == 1;
    ScanShift(body, 0, 1);
    assert Scan(")", 1) == 0;
  }

  /** Reading a string that never underflows from a deeper start ends that much deeper. */
  lemma {:induction false} ScanShift(s: string, d: nat, k: nat)
    requires Scan(s, d) >= 0
    ensures Scan(s, d + k) == Scan(s, d) + k
    decreases |s|
  {
    if s != [] {
      var next := d + ParenStep(s[0]);
      if next >= 0 {
        assert d + k + ParenStep(s[0]) == next + k;
        ScanShift(s[1..], next, k);
      }
    }
  }

  /** `(objectClass=<class>)`, or `(&<filter>(objectClass=<class>))` when a filter is given. */
  function ObjectFilter(objectClass: string, filter: Option<string>): (q: string)
    ensures filter.None? ==> q == "(objectClass=" + objectClass + ")"
    ensures filter.Some? ==> q == "(&" + filter.value + "(objectClass=" + objectClass + ")" + ")"
  {
    var byClass := "(objectClass=" + objectClass + ")";
    if filter.Some? then "(&" + filter.value + byClass + ")" else byClass
  }

  /** The composed filter is well formed whenever the caller's filter is and the class name has no parenthesis. */
  lemma ObjectFilterBalanced(objectClass: string, filter: Option<string>)
    requires ParenFree(objectClass)
    requires filter.Some? ==> Balanced(filter.value)
    ensures Balanced(ObjectFilter(objectClass, filter))
  {
    ClassFilterBalanced(objectClass);
    if filter.Some? {
      ConjunctionBalanced(filter.value, "(objectClass=" + objectClass + ")");
    }
  }

  /** `(objectClass=<class>)` is balanced when the class name has no parenthesis. */
  lemma ClassFilterBalanced(objectClass: string)
    requires ParenFree(objectClass)
    ensures Balanced("(objectClass=" + objectClass + ")")
  {
    var inner := "objectClass=" + objectClass;
    assert ParenFree(inner) by {
      forall i | 0 <= i < |inner| ensures inner[i] != '(' && inner[i] != ')' {
        if i >= |"objectClass="| {
          assert inner[i] == objectClass[i - |"objectClass="|];
        }
      }
    }
    ScanParenFree(inner, 0);
    ScanWrap(inner);
    assert "(" + inner + ")" == "(objectClass=" + objectClass + ")";
  }

  /** `(&<f><g>)` is balanced when both filters are. */
  lemma ConjunctionBalanced(f: string, g: string)
    requires Balanced(f) && Balanced(g)
    ensures Balanced("(&" + f + g + ")")
  {
    var body := "&" + f + g;
    ScanAppend("&" + f, g, 0);
    ScanAppend("&", f, 0);
    assert Scan("&", 0) == 0;
    ScanWrap(body);
    assert "(" + body + ")" == "(&" + f + g + ")";
  }

  /** `(<id_attr>=<escaped name>)`. */
  function NameFilter(idAttr: string, name: string): (q: string)
    ensures q == "(" + idAttr + "=" + Escape(name) + ")"
  {
    "(" + idAttr + "=" + Escape(name) + ")"
  }

  /**
   * No name can break out of its assertion: for any name the filter is one
   * balanced assertion whose value holds no wildcard and reads back as the name.
   */
  lemma NameFilterSafe(idAttr: string, name: string)
    requires ParenFree(idAttr)
    ensures Balanced(NameFilter(idAttr, name))
    ensures forall i :: 0 <= i < |Escape(name)| ==> Escape(name)[i] != '*'
    ensures Unescape(Escape(name)) == name
  {
    var body := idAttr + "=" + Escape(name);
    assert ParenFree(body) by {
      forall i | 0 <= i < |body| ensures body[i] != '(' && body[i] != ')' {
        if i < |idAttr| {
          assert body[i] == idAttr[i];
        } else if i > |idAttr| {
          assert body[i] == Escape(name)[i - |idAttr| - 1];
        }
      }
    }
    ScanParenFree(body, 0);
    ScanWrap(body);
    assert "(" + body + ")" == NameFilter(idAttr, name);
    UnescapeEscape(name);
  }

  // ----- The directory and its searches ---------------------------------------------

  /** An entry's attributes as the server returns them: attribute type to its string values. */
  type Attrs = map<string, seq<string>>

  datatype Scope = BaseScope | SubtreeScope

  datatype Directory = Directory(
    entries: map<string, Attrs>,
    order: seq<string>,                      // the order in which a search returns entries
    under: (string, string) -> bool,         // an entry DN lies in the subtree of a base DN
    matches: (string, Attrs) -> bool,        // an entry satisfies a search filter
    isDn: string -> bool,                    // the string parses as a DN
    binds: (Value, Value) -> bool,           // a simple bind with these credentials succeeds
    anonymousSearch: bool,                   // the server answers searches on an unbound connection
    reachable: bool)                         // ldap.initialize accepts the configured URL

  /**
   * valid_dn: the parsed DN is truthy. The empty string parses to the empty
   * DN, an empty list, so it does not count as a DN here.
   */
  predicate ValidDn(d: Directory, dn: string)
  {
    d.isDn(dn) && dn != ""
  }

  /** A connection and whether its bind succeeded. */
  datatype Conn = Conn(bound: bool)

  /** An optional configured string as a Python value. */
  function OptStr(o: Option<string>): Value
  {
    if o.Some? then VStr(o.value) else VNone
  }

  /** `if not given: given = configured`. */
  function CredentialOr(given: Value, configured: Option<string>): (v: Value)
    ensures Truthy(given) ==> v == given
    ensures !Truthy(given) ==> v == OptStr(configured)
  {
    if Truthy(given) then given else OptStr(configured)
  }

  /**
   * _get_connection: the `finally: return conn` hands back the connection
   * even when the bind failed; only a URL ldap.initialize rejects gives None.
   */
  function Connection(d: Directory, user: Value, password: Value): (c: Option<Conn>)
    ensures c.Some? <==> d.reachable
    ensures c.Some? ==> c.value.bound == d.binds(user, password)
  {
    if d.reachable then Some(Conn(d.binds(user, password))) else None
  }

  /** Why a search_s call raised. */
  datatype SearchFault = InvalidDnSyntax | Refused | NoSuchObject

  /** A search's filter test: with no (or an empty) query the server's default `(objectClass=*)` matches everything. */
  predicate Selects(d: Directory, query: Option<string>, attrs: Attrs)
  {
    !TruthyStr(query) || d.matches(query.value, attrs)
  }

  /** The entries, in the server's order, that lie below `base` and pass the filter. */
  function Hits(d: Directory, order: seq<string>, base: string, query: Option<string>): (r: seq<(string, Attrs)>)
    ensures forall h :: h in r <==>
      h.0 in order && h.0 in d.entries && h.1 == d.entries[h.0] && d.under(h.0, base) && Selects(d, query, h.1)
  {
    if order == [] then []
    else
      var dn := order[0];
      var rest := Hits(d, order[1..], base, query);
      assert forall x :: x in order <==> x == dn || x in order[1..];
      if dn in d.entries && d.under(dn, base) && Selects(d, query, d.entries[dn]) then [(dn, d.entries[dn])] + rest
      else rest
  }

  /** conn.search_s(base, scope[, query]). */
  function RawSearch(d: Directory, conn: Conn, base: string, scope: Scope, query: Option<string>): (r: Result<seq<(string, Attrs)>, SearchFault>)
    ensures !d.isDn(base) ==> r == Failure(InvalidDnSyntax)
    ensures d.isDn(base) && !conn.bound && !d.anonymousSearch ==> r == Failure(Refused)
    ensures r.Success? <==> d.isDn(base) && (conn.bound || d.anonymousSearch) && base in d.entries
    ensures r.Success? && scope == BaseScope ==>
      r.value == (if Selects(d, query, d.entries[base]) then [(base, d.entries[base])] else [])
    ensures r.Success? && scope == SubtreeScope ==> r.value == Hits(d, d.order, base, query)
  {
    if !d.isDn(base) then Failure(InvalidDnSyntax)
    else if !conn.bound && !d.anonymousSearch then Failure(Refused)
    else if base !in d.entries then Failure(NoSuchObject)
    else if scope == BaseScope then
      Success(if Selects(d, query, d.entries[base]) then [(base, d.entries[base])] else [])
    else Success(Hits(d, d.order, base, query))
  }

  // ----- Decoding a search result ---------------------------------------------------

  /** `v[0]`, or None for an empty value list. */
  function First(vs: seq<Value>): Value
  {
    if vs == [] then VNone else vs[0]
  }

  /**
   * _ldap_res_to_dict: `id` is the DN; each mapped field whose directory
   * attribute is on the entry gets that attribute's first value (None for an
   * empty list); a mapped field absent from the entry stays unset.
   */
  function ResToDict(mapping: map<string, string>, dn: string, attrs: map<string, seq<Value>>): (r: Record)
    ensures forall k :: k in r <==> k == "id" || (k in mapping && mapping[k] in attrs)
    ensures forall k :: k in mapping && mapping[k] in attrs ==> r[k] == First(attrs[mapping[k]])
    ensures ("id" !in mapping || mapping["id"] !in attrs) ==> r["id"] == VStr(dn)
  {
    map["id" := VStr(dn)] + Mapped(mapping, mapping.Keys, attrs)
  }

  /** The mapped fields among `fields` that the entry carries. */
  function Mapped(mapping: map<string, string>, fields: set<string>, attrs: map<string, seq<Value>>): (r: Record)
    requires fields <= mapping.Keys
    ensures forall k :: k in r <==> k in fields && mapping[k] in attrs
    ensures forall k :: k in r ==> r[k] == First(attrs[mapping[k]])
  {
    map k | k in fields && mapping[k] in attrs :: First(attrs[mapping[k]])
  }

  /** The dictionary after the loop has visited `done`. */
  function Partial(mapping: map<string, string>, dn: string, done: set<string>, attrs: map<string, seq<Value>>): Record
    requires done <= mapping.Keys
  {
    map["id" := VStr(dn)] + Mapped(mapping, done, attrs)
  }

  /** One iteration: the field `k` is set when its directory attribute is on the entry. */
  function Visit(mapping: map<string, string>, obj: Record, k: string, attrs: map<string, seq<Value>>): Record
    requires k in mapping
  {
    if mapping[k] in attrs then obj[k := First(attrs[mapping[k]])] else obj
  }

  lemma PartialStep(mapping: map<string, string>, dn: string, done: set<string>, k: string, attrs: map<string, seq<Value>>)
    requires done <= mapping.Keys && k in mapping
    ensures Partial(mapping, dn, done + {k}, attrs) == Visit(mapping, Partial(mapping, dn, done, attrs), k, attrs)
  {
    var m := Mapped(mapping, done, attrs);
    if mapping[k] in attrs {
      assert Mapped(mapping, done + {k}, attrs) == m[k := First(attrs[mapping[k]])];
      OverlayUpdate(map["id" := VStr(dn)], m, k, First(attrs[mapping[k]]));
    } else {
      assert Mapped(mapping, done + {k}, attrs) == m;
    }
  }

  /** The loop of _ldap_res_to_dict, field by field, in whatever order the map yields them. */
  method ResToDictLoop(mapping: map<string, string>, dn: string, attrs: map<string, seq<Value>>) returns (obj: Record)
    ensures obj == ResToDict(mapping, dn, attrs)
  {
    obj := FillFields(mapping, dn, attrs);
  }

  method FillFields(mapping: map<string, string>, dn: string, attrs: map<string, seq<Value>>) returns (obj: Record)
    ensures obj == Partial(mapping, dn, mapping.Keys, attrs)
  {
    var keys := ListOfSet(mapping.Keys);
    obj := map["id" := VStr(dn)];
    var i := 0;
    while i < |keys|
      invariant 0 <= i <= |keys|
      invariant obj == Visited(mapping, dn, keys[..i], attrs)
    {
      assert keys[..i + 1][..i] == keys[..i];
      obj := Visit(mapping, obj, keys[i], attrs);
      i := i + 1;
    }
    assert keys[..i] == keys;
    VisitedIsPartial(mapping, dn, keys, attrs);
    assert Covered(keys) == mapping.Keys;
  }

  /** The dictionary after visiting `keys` in order. */
  function Visited(mapping: map<string, string>, dn: string, keys: seq<string>, attrs: map<string, seq<Value>>): Record
    requires forall k :: k in keys ==> k in mapping
  {
    if keys == [] then map["id" := VStr(dn)]
    else Visit(mapping, Visited(mapping, dn, keys[..|keys| - 1], attrs), keys[|keys| - 1], attrs)
  }

  /** The set of keys a visit has covered. */
  function Covered(keys: seq<string>): (r: set<string>)
    ensures forall k :: k in r <==> k in keys
  {
    if keys == [] then {} else Covered(keys[..|keys| - 1]) + {keys[|keys| - 1]}
  }

  /** The visiting order does not matter: visiting keys gives the dictionary for the set of them. */
  lemma {:induction false} VisitedIsPartial(mapping: map<string, string>, dn: string, keys: seq<string>, attrs: map<string, seq<Value>>)
    requires forall k :: k in keys ==> k in mapping
    ensures Covered(keys) <= mapping.Keys
    ensures Visited(mapping, dn, keys, attrs) == Partial(mapping, dn, Covered(keys), attrs)
  {
    if keys == [] {
      assert Mapped(mapping, {}, attrs) == map[];
      assert map["id" := VStr(dn)] + map[] == map["id" := VStr(dn)];
    } else {
      var init, last := keys[..|keys| - 1], keys[|keys| - 1];
      assert forall k :: k in init ==> k in keys;
      VisitedIsPartial(mapping, dn, init, attrs);
      PartialStep(mapping, dn, Covered(init), last, attrs);
      assert Covered(keys) == Covered(init) + {last};
      assert Visited(mapping, dn, keys, attrs) == Visit(mapping, Visited(mapping, dn, init, attrs), last, attrs);
    }
  }

  /** The dictionary of one result entry: its values decoded, then mapped. */
  function EntryRecord(mapping: map<string, string>, dn: string, attrs: Attrs): Record
  {
    ResToDict(mapping, dn, map t | t in attrs :: DecodeValues(attrs[t]))
  }

  /** _ldap_search: NoSuchObject and InvalidDnSyntax give []; any other LDAP error escapes. */
  function Search(s: Settings, d: Directory, conn: Conn, base: string, scope: Scope, query: Option<string>): (r: Result<seq<Record>, Error>)
    ensures r.Failure? <==> RawSearch(d, conn, base, scope, query) == Failure(Refused)
    ensures r.Failure? ==> r.error == LdapError("search refused")
    ensures RawSearch(d, conn, base, scope, query).Failure? && r.Success? ==> r.value == []
    ensures RawSearch(d, conn, base, scope, query).Success? ==>
      var hits := RawSearch(d, conn, base, scope, query).value;
      r.Success? && |r.value| == |hits| &&
      forall i :: 0 <= i < |hits| ==> r.value[i] == EntryRecord(s.mapping, hits[i].0, hits[i].1)
  {
    match RawSearch(d, conn, base, scope, query)
    case Failure(Refused) => Failure(LdapError("search refused"))
    case Failure(_) => Success([])
    case Success(hits) => Success(seq(|hits|, i requires 0 <= i < |hits| => EntryRecord(s.mapping, hits[i].0, hits[i].1)))
  }

  // ----- Lookups --------------------------------------------------------------------

  /** The connection a lookup opens: with the wrapper's own configured credentials. */
  function ServiceConnection(s: Settings, d: Directory): Option<Conn>
  {
    Connection(d, OptStr(s.user), OptStr(s.password))
  }

  /** A record of an entry found by a subtree search below the wrapper's tree for `query`. */
  predicate FoundBelow(s: Settings, d: Directory, query: string, x: Record)
  {
    exists dn :: dn in d.entries && d.under(dn, s.treeDn) && d.matches(query, d.entries[dn])
      && x == EntryRecord(s.mapping, dn, d.entries[dn])
  }

  /**
   * _get_objects: a subtree search below the wrapper's tree for objects of
   * its class (and the filter, if any); [] without a connection. Every
   * record returned is that of such an entry.
   */
  function GetObjects(s: Settings, d: Directory, filter: Option<string>): (r: Result<seq<Record>, Error>)
    ensures ServiceConnection(s, d).None? ==> r == Success([])
    ensures r.Success? ==> forall x :: x in r.value ==> FoundBelow(s, d, ObjectFilter(s.objectClass, filter), x)
  {
    var query := ObjectFilter(s.objectClass, filter);
    match ServiceConnection(s, d)
    case None => Success([])
    case Some(conn) =>
      var r := Search(s, d, conn, s.treeDn, SubtreeScope, Some(query));
      assert r.Success? ==> forall x :: x in r.value ==> FoundBelow(s, d, query, x) by {
        if r.Success? && RawSearch(d, conn, s.treeDn, SubtreeScope, Some(query)).Success? {
          var hits := RawSearch(d, conn, s.treeDn, SubtreeScope, Some(query)).value;
          forall x | x in r.value ensures FoundBelow(s, d, query, x) {
            var i :| 0 <= i < |r.value| && r.value[i] == x;
            assert hits[i] in hits;
          }
        }
      }
      r
  }

  /**
   * Every entry below the tree that matches is returned, when the wrapper
   * can search there: the search is complete as well as sound.
   */
  lemma GetObjectsComplete(s: Settings, d: Directory, filter: Option<string>, dn: string)
    requires d.reachable && d.isDn(s.treeDn) && s.treeDn in d.entries
    requires d.binds(OptStr(s.user), OptStr(s.password)) || d.anonymousSearch
    requires dn in d.order && dn in d.entries && d.under(dn, s.treeDn)
    requires d.matches(ObjectFilter(s.objectClass, filter), d.entries[dn])
    ensures GetObjects(s, d, filter).Success?
    ensures EntryRecord(s.mapping, dn, d.entries[dn]) in GetObjects(s, d, filter).value
  {
    var query := ObjectFilter(s.objectClass, filter);
    var conn := ServiceConnection(s, d).value;
    var hits := RawSearch(d, conn, s.treeDn, SubtreeScope, Some(query)).value;
    assert (dn, d.entries[dn]) in hits;
    var i :| 0 <= i < |hits| && hits[i] == (dn, d.entries[dn]);
    assert GetObjects(s, d, filter).value[i] == EntryRecord(s.mapping, dn, d.entries[dn]);
  }

  /** get_all: every object of the wrapper's class below its tree. */
  function GetAll(s: Settings, d: Directory): (r: Result<seq<Record>, Error>)
    ensures r.Success? ==> forall x :: x in r.value ==> FoundBelow(s, d, ObjectFilter(s.objectClass, None), x)
  {
    GetObjects(s, d, None)
  }

  /** get_by_dn: the base-scope result at the DN; None without a connection or when nothing is there. */
  function GetByDn(s: Settings, d: Directory, dn: string): (r: Result<Option<Record>, Error>)
    ensures ServiceConnection(s, d).None? ==> r == Success(None)
    ensures r.Success? && r.value.Some? ==> dn in d.entries && r.value.value == EntryRecord(s.mapping, dn, d.entries[dn])
    ensures d.reachable && !d.isDn(dn) ==> r == Success(None)
    ensures d.reachable && d.isDn(dn) && dn !in d.entries ==> r.Success? ==> r.value.None?
  {
    match ServiceConnection(s, d)
    case None => Success(None)
    case Some(conn) =>
      var l :- Search(s, d, conn, dn, BaseScope, None);
      if l == [] then Success(None) else Success(Some(l[0]))
  }

  /** An entry that exists is found by its DN when the wrapper may search. */
  lemma GetByDnFinds(s: Settings, d: Directory, dn: string)
    requires d.reachable && d.isDn(dn) && dn in d.entries
    requires d.binds(OptStr(s.user), OptStr(s.password)) || d.anonymousSearch
    ensures GetByDn(s, d, dn) == Success(Some(EntryRecord(s.mapping, dn, d.entries[dn])))
  {
  }

  /** get_by_name: the first object whose id attribute equals the (escaped) name, or None. */
  function GetByName(s: Settings, d: Directory, name: string): (r: Result<Option<Record>, Error>)
    ensures ServiceConnection(s, d).None? ==> r == Success(None)
    ensures r.Success? <==> GetObjects(s, d, Some(NameFilter(s.idAttr, name))).Success?
    ensures r.Success? ==>
      var l := GetObjects(s, d, Some(NameFilter(s.idAttr, name))).value;
      (r.value.None? <==> l == []) && (r.value.Some? ==> r.value.value == l[0])
    ensures r.Success? && r.value.Some? ==>
      FoundBelow(s, d, ObjectFilter(s.objectClass, Some(NameFilter(s.idAttr, name))), r.value.value)
  {
    var l :- GetObjects(s, d, Some(NameFilter(s.idAttr, name)));
    if l == [] then Success(None) else Success(Some(l[0]))
  }

  /**
   * An object below the tree whose id attribute matches the name is found:
   * None from get_by_name means that no such object exists.
   */
  lemma GetByNameFinds(s: Settings, d: Directory, name: string, dn: string)
    requires d.reachable && d.isDn(s.treeDn) && s.treeDn in d.entries
    requires d.binds(OptStr(s.user), OptStr(s.password)) || d.anonymousSearch
    requires dn in d.order && dn in d.entries && d.under(dn, s.treeDn)
    requires d.matches(ObjectFilter(s.objectClass, Some(NameFilter(s.idAttr, name))), d.entries[dn])
    ensures GetByName(s, d, name).Success? && GetByName(s, d, name).value.Some?
  {
    GetObjectsComplete(s, d, Some(NameFilter(s.idAttr, name)), dn);
  }

  /**
   * authenticate as written: the search runs on whatever connection
   * _get_connection returned, bound or not, and `[0]` of an empty result
   * raises IndexError. None stands for the falsy `[]` of a missing connection.
   */
  function AuthenticateAsWritten(s: Settings, d: Directory, user: string, password: Value): (r: Result<Option<Record>, Error>)
  {
    match Connection(d, CredentialOr(VStr(user), s.user), CredentialOr(password, s.password))
    case None => Success(None)
    case Some(conn) =>
      var l :- Search(s, d, conn, user, BaseScope, None);
      if l == [] then Failure(IndexError) else Success(Some(l[0]))
  }

  /** With anonymous search allowed, a wrong password still yields the user's entry. */
  lemma AuthenticateAsWrittenSkipsBind(s: Settings, d: Directory, user: string, password: Value)
    requires user != "" && d.reachable && d.anonymousSearch && d.isDn(user) && user in d.entries
    requires !d.binds(VStr(user), CredentialOr(password, s.password))
    ensures AuthenticateAsWritten(s, d, user, password) == Success(Some(EntryRecord(s.mapping, user, d.entries[user])))
  {
  }

  /** A user id that is not a DN (every SQL user) fails with IndexError instead of falling back to SQL. */
  lemma AuthenticateAsWrittenRejectsNonDn(s: Settings, d: Directory, user: string, password: Value)
    requires d.reachable && !d.isDn(user)
    ensures AuthenticateAsWritten(s, d, user, password) == Failure(IndexError)
  {
  }

  /**
   * authenticate as intended: a record only when the bind with the caller's
   * credentials succeeds and the entry is there; None (let SQL decide) otherwise.
   */
  function Authenticate(s: Settings, d: Directory, user: string, password: Value): (r: Result<Option<Record>, Error>)
    ensures r.Success? && r.value.Some? ==>
      d.reachable && d.binds(CredentialOr(VStr(user), s.user), CredentialOr(password, s.password))
      && user in d.entries && r.value.value == EntryRecord(s.mapping, user, d.entries[user])
    ensures !d.reachable || !d.binds(CredentialOr(VStr(user), s.user), CredentialOr(password, s.password)) ==> r == Success(None)
    ensures !d.isDn(user) ==> r == Success(None)
  {
    match Connection(d, CredentialOr(VStr(user), s.user), CredentialOr(password, s.password))
    case None => Success(None)
    case Some(conn) =>
      if !conn.bound then Success(None)
      else
        var l :- Search(s, d, conn, user, BaseScope, None);
        if l == [] then Success(None) else Success(Some(l[0]))
  }

  /** A successful bind on an existing entry authenticates as that entry. */
  lemma AuthenticateFinds(s: Settings, d: Directory, user: string, password: Value)
    requires user != "" && d.reachable && d.isDn(user) && user in d.entries
    requires d.binds(VStr(user), CredentialOr(password, s.password))
    ensures Authenticate(s, d, user, password) == Success(Some(EntryRecord(s.mapping, user, d.entries[user])))
  {
  }
}
