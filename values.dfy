/**
 * Dynamically typed values, as they appear in the dictionaries ("refs") that
 * flow between controllers, managers and backends, together with the few
 * Python operations on them that the backends rely on: truthiness, equality,
 * str() rendering and int() parsing of a decimal string.
 */
module Values {
  import opened Wrappers

  datatype Value =
    | VNone
    | VBool(b: bool)
    | VInt(i: int)
    | VStr(s: string)
    | VList(items: seq<Value>)
    | VDict(fields: map<string, Value>)

  /** A dictionary with string keys: a ref, a JSON `extra` blob, metadata. */
  type Record = map<string, Value>

  /** The exceptions the modelled code raises or catches. */
  datatype Error =
    | ServiceNotFound(serviceId: Value)
    | EndpointNotFound(endpointId: string)
    | UserNotFound(userId: string)
    | TenantNotFound(tenantId: string)
    | RoleNotFound(roleId: string)
    | MetadataNotFound
    | NotFound(message: string)
    | Conflict(kind: string)
    | IntegrityError
    | ValidationError(message: string)
    | AssertionError(message: string)
    | MalformedEndpoint(endpoint: string)
    | NotImplemented(message: string)
    | KeyError(key: string)
    | TypeError
    | AttributeError(name: string)
    | IndexError
    /** An LDAP error the driver does not catch (a search the server refuses). */
    | LdapError(message: string)
    /** A case whose outcome this model does not determine (see the README). */
    | OutsideModel(what: string)

  /** `dict.get(key, default)`. */
  function DictGet(r: Record, key: string, default: Value): (v: Value)
    ensures key in r ==> v == r[key]
    ensures key !in r ==> v == default
  {
    if key in r then r[key] else default
  }

  /** Python truthiness. */
  predicate Truthy(v: Value)
  {
    match v
    case VNone => false
    case VBool(b) => b
    case VInt(i) => i != 0
    case VStr(s) => s != ""
    case VList(xs) => xs != []
    case VDict(m) => m != map[]
  }

  /** Python truthiness of an optional string (`None` or a `str`). */
  predicate TruthyStr(s: Option<string>)
  {
    s.Some? && s.value != ""
  }

  /** The integer a bool or int stands for in arithmetic and comparison. */
  predicate IsNumber(v: Value)
  {
    v.VBool? || v.VInt?
  }

  function NumberOf(v: Value): int
    requires IsNumber(v)
  {
    if v.VBool? then (if v.b then 1 else 0) else v.i
  }

  /**
   * Python `==`: bools compare as the integers 0 and 1, containers compare
   * element by element, values of unrelated types are unequal.
   */
  predicate PyEq(a: Value, b: Value)
  {
    if IsNumber(a) && IsNumber(b) then NumberOf(a) == NumberOf(b)
    else match (a, b)
      case (VNone, VNone) => true
      case (VStr(x), VStr(y)) => x == y
      case (VList(xs), VList(ys)) =>
        |xs| == |ys| && forall i :: 0 <= i < |xs| ==> PyEq(xs[i], ys[i])
      case (VDict(m), VDict(n)) =>
        m.Keys == n.Keys && forall k :: k in m ==> PyEq(m[k], n[k])
      case _ => false
  }

  lemma {:induction false} PyEqReflexive(a: Value)
    ensures PyEq(a, a)
  {
    match a
    case VList(xs) =>
      forall i | 0 <= i < |xs| ensures PyEq(xs[i], xs[i]) {
        PyEqReflexive(xs[i]);
      }
    case VDict(m) =>
      forall k | k in m ensures PyEq(m[k], m[k]) {
        PyEqReflexive(m[k]);
      }
    case _ =>
  }

  /** On strings and None, Python equality is plain equality. */
  lemma PyEqStr(a: Value, s: string)
    ensures PyEq(a, VStr(s)) <==> a == VStr(s)
    ensures PyEq(VStr(s), a) <==> a == VStr(s)
  {
  }

  // ----- decimal rendering and parsing ------------------------------------

  predicate IsDigit(c: char) { '0' <= c <= '9' }

  function DigitChar(d: int): (c: char)
    requires 0 <= d < 10
    ensures IsDigit(c)
  {
    ['0', '1', '2', '3', '4', '5', '6', '7', '8', '9'][d]
  }

  function DigitValue(c: char): (d: nat)
    requires IsDigit(c)
    ensures d < 10 && DigitChar(d) == c
  {
    if c == '0' then 0 else if c == '1' then 1 else if c == '2' then 2
    else if c == '3' then 3 else if c == '4' then 4 else if c == '5' then 5
    else if c == '6' then 6 else if c == '7' then 7 else if c == '8' then 8
    else 9
  }

  /** The decimal digits of a natural number, most significant first. */
  function NatDigits(n: nat): (s: string)
    ensures |s| > 0
    ensures forall i :: 0 <= i < |s| ==> IsDigit(s[i])
    decreases n
  {
    if n < 10 then [DigitChar(n)] else NatDigits(n / 10) + [DigitChar(n % 10)]
  }

  /** The value of a non-empty digit string. */
  function DigitsValue(s: string): nat
    requires forall i :: 0 <= i < |s| ==> IsDigit(s[i])
    decreases |s|
  {
    if s == [] then 0 else 10 * DigitsValue(s[..|s| - 1]) + DigitValue(s[|s| - 1])
  }

  lemma {:induction false} DigitsValueOfNatDigits(n: nat)
    ensures DigitsValue(NatDigits(n)) == n
    decreases n
  {
    if n >= 10 {
      var s := NatDigits(n);
      assert s[..|s| - 1] == NatDigits(n / 10);
      DigitsValueOfNatDigits(n / 10);
    }
  }

  /** Python `str(i)` / `%d` of an integer. */
  function IntToString(i: int): (s: string)
    ensures |s| > 0
  {
    if i < 0 then "-" + NatDigits(-i) else NatDigits(i)
  }

  /** Python `str(v)` for the scalar values; containers are not rendered. */
  function Str(v: Value): Option<string>
  {
    match v
    case VNone => Some("None")
    case VBool(b) => Some(if b then "True" else "False")
    case VInt(i) => Some(IntToString(i))
    case VStr(s) => Some(s)
    case _ => None
  }

  /** The characters C's isspace accepts in the default locale. */
  predicate IsSpace(c: char)
  {
    c == ' ' || c == '\t' || c == '\n' || c == '\r' || c == '\U{0b}' || c == '\U{0c}'
  }

  /** The number of leading whitespace characters of s. */
  function SpaceRun(s: string): (n: nat)
    ensures n <= |s|
    ensures forall i :: 0 <= i < n ==> IsSpace(s[i])
    ensures n < |s| ==> !IsSpace(s[n])
  {
    if s != [] && IsSpace(s[0]) then 1 + SpaceRun(s[1..]) else 0
  }

  /** The number of leading decimal digits of s. */
  function DigitRun(s: string): (n: nat)
    ensures n <= |s|
    ensures forall i :: 0 <= i < n ==> IsDigit(s[i])
    ensures n < |s| ==> !IsDigit(s[n])
  {
    if s != [] && IsDigit(s[0]) then 1 + DigitRun(s[1..]) else 0
  }

  predicate AllSpace(s: string)
  {
    forall i :: 0 <= i < |s| ==> IsSpace(s[i])
  }

  /**
   * Python 2 `int(s)` on a byte string, base 10: optional whitespace, an
   * optional sign, optional whitespace, at least one digit, optional
   * trailing whitespace. Anything else raises ValueError (None here).
   */
  function ParseInt(s: string): Option<int>
  {
    ParseSigned(s[SpaceRun(s)..])
  }

  /** The text after the leading whitespace: an optional sign, then the magnitude. */
  function ParseSigned(rest: string): Option<int>
  {
    if rest != [] && rest[0] == '-' then
      (match ParseMagnitude(rest[1..]) case Some(v) => Some(-v) case None => None)
    else if rest != [] && rest[0] == '+' then ParseMagnitude(rest[1..])
    else ParseMagnitude(rest)
  }

  /** Optional whitespace, at least one digit, optional trailing whitespace. */
  function ParseMagnitude(body: string): Option<int>
  {
    var digits := body[SpaceRun(body)..];
    var n := DigitRun(digits);
    if n == 0 || !AllSpace(digits[n..]) then None
    else Some(DigitsValue(digits[..n]))
  }

  lemma DigitRunOfDigits(d: string, tail: string)
    requires forall i :: 0 <= i < |d| ==> IsDigit(d[i])
    requires tail == [] || !IsDigit(tail[0])
    ensures DigitRun(d + tail) == |d|
    decreases |d|
  {
    if d != [] {
      assert (d + tail)[1..] == d[1..] + tail;
      DigitRunOfDigits(d[1..], tail);
    }
  }

  /** `int(str(i)) == i`: rendering an integer and parsing it back is the identity. */
  lemma {:induction false} ParseIntOfIntToString(i: int)
    ensures ParseInt(IntToString(i)) == Some(i)
  {
    if i < 0 {
      ParseIntOfNegatedNat(-i);
    } else {
      ParseIntOfNat(i);
    }
  }

  lemma {:induction false} ParseIntOfNat(n: nat)
    ensures ParseInt(NatDigits(n)) == Some(n)
  {
    ParseIntOfDigits(NatDigits(n));
    DigitsValueOfNatDigits(n);
  }

  lemma {:induction false} ParseIntOfNegatedNat(n: nat)
    ensures ParseInt("-" + NatDigits(n)) == Some(-(n as int))
  {
    var d := NatDigits(n);
    DigitsValueOfNatDigits(n);
    ParseIntOfNegativeDigits(d, n);
  }

  lemma {:induction false} ParseMagnitudeOfDigits(d: string)
    requires d != [] && forall i :: 0 <= i < |d| ==> IsDigit(d[i])
    ensures ParseMagnitude(d) == Some(DigitsValue(d))
  {
    assert SpaceRun(d) == 0;
    assert d[0..] == d;
    DigitRunOfDigits(d, []);
    assert d + [] == d;
    assert d[..|d|] == d;
  }

  lemma {:induction false} ParseIntOfDigits(d: string)
    requires d != [] && forall i :: 0 <= i < |d| ==> IsDigit(d[i])
    ensures ParseInt(d) == Some(DigitsValue(d))
  {
    assert SpaceRun(d) == 0;
    assert d[0..] == d;
    ParseMagnitudeOfDigits(d);
  }

  lemma {:induction false} ParseIntOfNegativeDigits(d: string, v: nat)
    requires d != [] && forall i :: 0 <= i < |d| ==> IsDigit(d[i])
    requires DigitsValue(d) == v
    ensures ParseInt("-" + d) == Some(-(v as int))
  {
    var s := "-" + d;
    assert s[0] == '-' && !IsSpace(s[0]);
    assert SpaceRun(s) == 0;
    assert s[0..] == s;
    assert s[1..] == d;
    ParseMagnitudeOfDigits(d);
    assert ParseMagnitude(s[1..]) == Some(DigitsValue(d));
    assert ParseSigned(s) == Some(-(v as int));
  }

  /** A string holding no digit is not an integer. */
  lemma ParseIntNeedsDigit(s: string)
    requires forall i :: 0 <= i < |s| ==> !IsDigit(s[i])
    ensures ParseInt(s) == None
  {
    var rest := s[SpaceRun(s)..];
    var body := if rest != [] && (rest[0] == '-' || rest[0] == '+') then rest[1..] else rest;
    var digits := body[SpaceRun(body)..];
    if digits != [] {
      assert digits[0] in s;
    }
  }
}
