/** The values `JSON.parse` produces, and the few JavaScript operations the
    pages apply to them: property access, the `in` operator, truthiness,
    `Array.isArray`, `String(v)`, `Array.prototype.join` and
    `Object.entries`. */
module JsValue {
  import opened Wrappers
  import opened Text

  /** A parsed JSON value. Numbers are exact reals (the binary rounding of
      JavaScript numbers is not modelled). An object's members are listed in
      JavaScript's property order, one member per key, as `JSON.parse` leaves
      them. */
  datatype Json =
    | JNull
    | JBool(b: bool)
    | JNumber(n: real)
    | JString(s: string)
    | JArray(elems: seq<Json>)
    | JObject(members: seq<(string, Json)>)

  /** `JSON.parse`, taken as given: the parsed value, or the message of the
      `SyntaxError` it throws. */
  type Parser = string -> Result<Json, string>

  /** `Number.prototype.toString`, taken as given. */
  type NumberText = real -> string

  /** The array index a property key denotes, if it is a canonical decimal
      numeral ("0", "1", ... but not "01"). */
  function IndexKey(key: string): (r: Option<nat>)
    ensures r.Some? ==> key == NatText(r.value)
  {
    if key != [] && AllDigits(key) && (key[0] != '0' || key == "0") then
      CanonicalNumeral(key);
      Some(DigitsValue(key))
    else None
  }

  /** A canonical numeral is the decimal text of its own value. */
  lemma {:induction false} CanonicalNumeral(key: string)
    requires key != [] && AllDigits(key) && (key[0] != '0' || key == "0")
    ensures NatText(DigitsValue(key)) == key
    decreases |key|
  {
    if |key| > 1 {
      var front := key[..|key| - 1];
      CanonicalNumeral(front);
      var d := key[|key| - 1] as int - '0' as int;
      var n := DigitsValue(key);
      assert n == 10 * DigitsValue(front) + d;
      assert n / 10 == DigitsValue(front) && n % 10 == d;
      assert DigitsValue(front) > 0 by {
        if DigitsValue(front) == 0 { ZeroNumeral(front); }
      }
      assert key == front + [key[|key| - 1]];
    }
  }

  /** Only "0" among canonical numerals has the value 0, and its first digit
      is '0'. */
  lemma {:induction false} ZeroNumeral(ds: string)
    requires ds != [] && AllDigits(ds) && DigitsValue(ds) == 0
    ensures ds[0] == '0'
    decreases |ds|
  {
    if |ds| > 1 {
      ZeroNumeral(ds[..|ds| - 1]);
    }
  }

  /** First member with the given key in a member list. */
  function Lookup(members: seq<(string, Json)>, key: string): (r: Option<Json>)
    ensures r.Some? <==> exists i :: 0 <= i < |members| && members[i].0 == key
    ensures r.Some? ==> (key, r.value) in members
    decreases |members|
  {
    if members == [] then None
    else if members[0].0 == key then Some(members[0].1)
    else
      var r := Lookup(members[1..], key);
      assert forall i :: 1 <= i < |members| ==> members[i] == members[1..][i - 1];
      r
  }

  /** The member found is the first one carrying the key. */
  lemma {:induction false} LookupFirst(members: seq<(string, Json)>, key: string, i: nat)
    requires i < |members| && members[i].0 == key
    requires forall k :: 0 <= k < i ==> members[k].0 != key
    ensures Lookup(members, key) == Some(members[i].1)
    decreases i
  {
    if i > 0 {
      LookupFirst(members[1..], key, i - 1);
    }
  }

  /** In an object of four members with distinct keys, each member is found
      under its own key. */
  lemma LookupFour(m0: (string, Json), m1: (string, Json), m2: (string, Json), m3: (string, Json))
    requires m0.0 != m1.0 && m0.0 != m2.0 && m0.0 != m3.0
    requires m1.0 != m2.0 && m1.0 != m3.0 && m2.0 != m3.0
    ensures Lookup([m0, m1, m2, m3], m0.0) == Some(m0.1)
    ensures Lookup([m0, m1, m2, m3], m1.0) == Some(m1.1)
    ensures Lookup([m0, m1, m2, m3], m2.0) == Some(m2.1)
    ensures Lookup([m0, m1, m2, m3], m3.0) == Some(m3.1)
  {
    var ms := [m0, m1, m2, m3];
    LookupFirst(ms, m0.0, 0);
    LookupFirst(ms, m1.0, 1);
    LookupFirst(ms, m2.0, 2);
    LookupFirst(ms, m3.0, 3);
  }

  /** The property access `v[key]` on a value that is not null; `None` is
      `undefined`. Arrays and strings expose their indices and `length`;
      members inherited from a prototype are not modelled (no key the pages
      read is one). Strings are indexed by character, not by UTF-16 unit. */
  function Get(v: Json, key: string): (r: Option<Json>)
    ensures v.JObject? ==> r == Lookup(v.members, key)
    ensures v.JNull? || v.JBool? || v.JNumber? ==> r.None?
    ensures v.JArray? && IndexKey(key).Some? && IndexKey(key).value < |v.elems|
            ==> r == Some(v.elems[IndexKey(key).value])
  {
    match v
    case JObject(ms) => Lookup(ms, key)
    case JArray(es) =>
      if key == "length" then Some(JNumber(|es| as real))
      else if IndexKey(key).Some? && IndexKey(key).value < |es| then Some(es[IndexKey(key).value])
      else None
    case JString(s) =>
      if key == "length" then Some(JNumber(|s| as real))
      else if IndexKey(key).Some? && IndexKey(key).value < |s| then Some(JString([s[IndexKey(key).value]]))
      else None
    case _ => None
  }

  /** The `key in v` operator: own keys of objects and arrays; on any other
      value JavaScript throws a `TypeError` (its message is engine-defined and
      approximated here). */
  function HasProperty(v: Json, key: string): (r: Result<bool, string>)
    ensures r.Ok? <==> v.JObject? || v.JArray?
    ensures v.JObject? ==> (r == Ok(true) <==> exists i :: 0 <= i < |v.members| && v.members[i].0 == key)
    ensures v.JArray? && IndexKey(key).None? && key != "length" ==> r == Ok(false)
  {
    match v
    case JObject(ms) => Ok(Lookup(ms, key).Some?)
    case JArray(es) => Ok(key == "length" || (IndexKey(key).Some? && IndexKey(key).value < |es|))
    case _ => Err("Cannot use 'in' operator to search for '" + key + "'")
  }

  /** JavaScript truthiness of a property value (`None` is `undefined`). */
  predicate Truthy(v: Option<Json>) {
    match v
    case None => false
    case Some(JNull) => false
    case Some(JBool(b)) => b
    case Some(JNumber(n)) => n != 0.0
    case Some(JString(s)) => s != ""
    case Some(_) => true
  }

  /** `Array.isArray` of a property value. */
  predicate IsArray(v: Option<Json>) {
    v.Some? && v.value.JArray?
  }

  /** The falsy values of ECMA-262's ToBoolean that JSON can hold are
      exactly `undefined`, `null`, `false`, `0` and `""`; every array, even
      an empty one, passes `Array.isArray` and is truthy. */
  lemma FalsyValues(v: Option<Json>)
    ensures !Truthy(v) <==>
              v.None? || v == Some(JNull) || v == Some(JBool(false)) || v == Some(JNumber(0.0)) || v == Some(JString(""))
    ensures IsArray(v) ==> Truthy(v)
  {
  }

  /** `String(v)`. */
  function ToText(v: Json, numText: NumberText): string
    decreases v
  {
    match v
    case JNull => "null"
    case JBool(b) => if b then "true" else "false"
    case JNumber(n) => numText(n)
    case JString(s) => s
    case JArray(es) => JoinElements(es, ",", numText)
    case JObject(_) => "[object Object]"
  }

  /** `Array.prototype.join(sep)`: null elements become the empty string,
      every other element its `String` form. */
  function JoinElements(es: seq<Json>, sep: string, numText: NumberText): (r: string)
    ensures |es| == 1 && es[0].JString? ==> r == es[0].s
    decreases es
  {
    if es == [] then ""
    else
      var first := if es[0].JNull? then "" else ToText(es[0], numText);
      if |es| == 1 then first else first + sep + JoinElements(es[1..], sep, numText)
  }

  /** `JoinElements` on an array of strings is `Join` on those strings. */
  lemma {:induction false} JoinElementsOfStrings(parts: seq<string>, sep: string, numText: NumberText)
    ensures JoinElements(seq(|parts|, i requires 0 <= i < |parts| => JString(parts[i])), sep, numText)
            == Join(parts, sep)
    decreases |parts|
  {
    var es := seq(|parts|, i requires 0 <= i < |parts| => JString(parts[i]));
    if |parts| > 1 {
      assert es[1..] == seq(|parts[1..]|, i requires 0 <= i < |parts[1..]| => JString(parts[1..][i]));
      JoinElementsOfStrings(parts[1..], sep, numText);
    }
  }

  /** `String` of an array of strings joins them with commas. */
  lemma ToTextOfStrings(parts: seq<string>, numText: NumberText)
    ensures ToText(JArray(seq(|parts|, i requires 0 <= i < |parts| => JString(parts[i]))), numText)
            == Join(parts, ",")
  {
    JoinElementsOfStrings(parts, ",", numText);
  }

  /** `Object.entries(v)` for a value that is not null: an object's members,
      an array's or a string's index/element pairs, nothing otherwise. */
  function Entries(v: Json): (r: seq<(string, Json)>)
    ensures v.JObject? ==> r == v.members
    ensures v.JArray? ==> |r| == |v.elems|
    ensures v.JArray? ==> forall i :: 0 <= i < |r| ==> r[i] == (NatText(i), v.elems[i])
  {
    match v
    case JObject(ms) => ms
    case JArray(es) => seq(|es|, i requires 0 <= i < |es| => (NatText(i), es[i]))
    case JString(s) => seq(|s|, i requires 0 <= i < |s| => (NatText(i), JString([s[i]])))
    case _ => []
  }
}
