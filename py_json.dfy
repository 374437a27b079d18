/** A decoded JSON document as Python's `json` module hands it over
    (`response.json()`), and the few Python operations the relay applies to
    it: truthiness, `dict.get(key, default)` and subscription with `[0]`.
    A failing operation yields the text `str(e)` of the exception Python
    raises. */
module PyJson {
  import opened Wrappers

  /** JSON values; an object keeps its members in document order, duplicate
      keys included (the decoded dict keeps the last binding of a key). */
  datatype Json =
    | JNull
    | JBool(b: bool)
    | JInt(n: int)
    | JStr(s: string)
    | JArr(items: seq<Json>)
    | JObj(fields: seq<(string, Json)>)

  /** The Python class name of the decoded value, as error messages print it. */
  function TypeName(v: Json): string {
    match v
    case JNull => "NoneType"
    case JBool(_) => "bool"
    case JInt(_) => "int"
    case JStr(_) => "str"
    case JArr(_) => "list"
    case JObj(_) => "dict"
  }

  /** Python truthiness, as `if candidates:` tests it: None, False, 0 and
      the empty string, list and dict are false. */
  predicate Truthy(v: Json)
    ensures v.JNull? ==> !Truthy(v)
    ensures v.JObj? ==> (Truthy(v) <==> exists k :: !Absent(v.fields, k))
  {
    match v
    case JNull => false
    case JBool(b) => b
    case JInt(n) => n != 0
    case JStr(s) => |s| > 0
    case JArr(items) => |items| > 0
    case JObj(fields) =>
      assert |fields| > 0 ==> !Absent(fields, fields[0].0);
      |fields| > 0
  }

  /** No member of the object has this key. */
  ghost predicate Absent(fields: seq<(string, Json)>, key: string) {
    forall i :: 0 <= i < |fields| ==> fields[i].0 != key
  }

  /** `x` is bound to `key` by the last member with that key. */
  ghost predicate LastBinding(fields: seq<(string, Json)>, key: string, x: Json) {
    exists i :: 0 <= i < |fields| && fields[i] == (key, x) &&
      forall j :: i < j < |fields| ==> fields[j].0 != key
  }

  /** Key lookup in the decoded dict: the last binding wins. */
  function Lookup(fields: seq<(string, Json)>, key: string): (r: Option<Json>)
    ensures r.None? <==> Absent(fields, key)
    ensures r.Some? ==> LastBinding(fields, key, r.value)
    decreases |fields|
  {
    if |fields| == 0 then None
    else if fields[|fields| - 1].0 == key then
      assert fields[|fields| - 1] == (key, fields[|fields| - 1].1);
      Some(fields[|fields| - 1].1)
    else
      var prefix := fields[..|fields| - 1];
      var r := Lookup(prefix, key);
      if r.Some? then
        ghost var i :| 0 <= i < |prefix| && prefix[i] == (key, r.value) &&
          forall j :: i < j < |prefix| ==> prefix[j].0 != key;
        assert fields[i] == (key, r.value);
        r
      else
        assert forall i :: 0 <= i < |prefix| ==> prefix[i] == fields[i];
        r
  }

  /** `d.get(key, default)` on a dict known to be one. */
  function Member(fields: seq<(string, Json)>, key: string, default: Json): (r: Json)
    ensures Absent(fields, key) ==> r == default
    ensures !Absent(fields, key) ==> LastBinding(fields, key, r)
  {
    match Lookup(fields, key)
    case Some(x) => x
    case None => default
  }

  /** `v.get(key, default)`: only a dict has a `get` method; anything else
      raises AttributeError. */
  function Get(v: Json, key: string, default: Json): (r: Result<Json, string>)
    ensures r.Success? <==> v.JObj?
    ensures v.JObj? && Absent(v.fields, key) ==> r.value == default
    ensures v.JObj? && !Absent(v.fields, key) ==> LastBinding(v.fields, key, r.value)
    ensures !v.JObj? ==> r.error == "'" + TypeName(v) + "' object has no attribute 'get'"
  {
    if v.JObj? then Success(Member(v.fields, key, default))
    else Failure("'" + TypeName(v) + "' object has no attribute 'get'")
  }

  /** `v[0]`. A list or string yields its first element (a one-character
      string for a string) or raises IndexError when empty; a dict raises
      KeyError(0), since decoded keys are strings; None, booleans and
      integers are not subscriptable (TypeError). */
  function Index0(v: Json): (r: Result<Json, string>)
    ensures r.Success? <==> Truthy(v) && (v.JArr? || v.JStr?)
    ensures r.Success? && v.JArr? ==> r.value == v.items[0]
    ensures r.Success? && v.JStr? ==> r.value == JStr(v.s[..1])
  {
    match v
    case JArr(items) => if |items| > 0 then Success(items[0]) else Failure("list index out of range")
    case JStr(s) => if |s| > 0 then Success(JStr(s[..1])) else Failure("string index out of range")
    case JObj(_) => Failure("0")
    case _ => Failure("'" + TypeName(v) + "' object is not subscriptable")
  }

  /** Somewhere inside `v`, at any depth, a dict member binds `key` to `x`. */
  ghost predicate Holds(v: Json, key: string, x: Json)
    decreases v
  {
    match v
    case JArr(items) => exists i :: 0 <= i < |items| && Holds(items[i], key, x)
    case JObj(fields) =>
      exists i :: 0 <= i < |fields| && (fields[i] == (key, x) || Holds(fields[i].1, key, x))
    case _ => false
  }

  /** What `d.get(k, default)` returns from inside a dict was found inside
      that dict, unless it is the default. */
  lemma HoldsThroughMember(fields: seq<(string, Json)>, k: string, default: Json, key: string, x: Json)
    requires Holds(Member(fields, k, default), key, x)
    requires !Holds(default, key, x)
    ensures Holds(JObj(fields), key, x)
  {
    var r := Lookup(fields, k);
    var i :| 0 <= i < |fields| && fields[i] == (k, r.value) &&
      forall j :: i < j < |fields| ==> fields[j].0 != k;
    assert Holds(fields[i].1, key, x);
  }

  /** What `v[0]` returns from a list was found inside that list. */
  lemma HoldsThroughIndex0(v: Json, key: string, x: Json)
    requires Index0(v).Success? && Holds(Index0(v).value, key, x)
    ensures Holds(v, key, x)
  {
    if v.JArr? {
      assert Holds(v.items[0], key, x);
    }
  }
}
