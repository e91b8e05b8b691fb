/** The values `json.loads` produces (RFC 8259 documents decoded into Python objects), with
    the two Python operations the rule engine applies to them: truthiness and `str()`. */
module Json {
  import opened Common
  import opened Text

  /** A decoded JSON value. A number with a fraction or exponent becomes a Python float,
      carried as the text `str()` gives for it; an object keeps its members in document
      order, duplicates included. */
  datatype Json =
    | JNull
    | JBool(b: bool)
    | JInt(i: int)
    | JFloat(repr: string)
    | JString(s: string)
    | JArray(items: seq<Json>)
    | JObject(members: seq<(string, Json)>)

  /** Python's `bool(x)`: `None`, `False`, zero, the empty string, the empty list and the
      empty dict are false. `str()` of a zero float is `0.0` or `-0.0`. */
  predicate Truthy(j: Json) {
    match j
    case JNull => false
    case JBool(b) => b
    case JInt(i) => i != 0
    case JFloat(r) => r != "0.0" && r != "-0.0"
    case JString(s) => s != []
    case JArray(items) => items != []
    case JObject(members) => members != []
  }

  /** `d.get(key)` on a decoded object: `json.loads` keeps the last of duplicate keys. */
  function Lookup(members: seq<(string, Json)>, key: string): (r: Option<Json>)
    ensures r.None? <==> forall k :: 0 <= k < |members| ==> members[k].0 != key
    ensures r.Some? ==> exists k :: 0 <= k < |members| && members[k] == (key, r.value)
                                    && forall m :: k < m < |members| ==> members[m].0 != key
  {
    if members == [] then None
    else
      var last := members[|members| - 1];
      if last.0 == key then Some(last.1)
      else
        var init := members[..|members| - 1];
        var r := Lookup(init, key);
        assert members == init + [last];
        LookupPastOther(init, last, key, r);
        r
  }

  /** Appending a member with another key keeps the answer `Lookup` gives and its meaning. */
  lemma LookupPastOther(init: seq<(string, Json)>, last: (string, Json), key: string, r: Option<Json>)
    requires last.0 != key
    requires r.None? <==> forall k :: 0 <= k < |init| ==> init[k].0 != key
    requires r.Some? ==> exists k :: 0 <= k < |init| && init[k] == (key, r.value)
                                     && forall m :: k < m < |init| ==> init[m].0 != key
    ensures var members := init + [last];
      (r.None? <==> forall k :: 0 <= k < |members| ==> members[k].0 != key)
      && (r.Some? ==> exists k :: 0 <= k < |members| && members[k] == (key, r.value)
                                  && forall m :: k < m < |members| ==> members[m].0 != key)
  {
    var members := init + [last];
    assert forall k :: 0 <= k < |init| ==> members[k] == init[k];
    if r.Some? {
      var k :| 0 <= k < |init| && init[k] == (key, r.value) && forall m :: k < m < |init| ==> init[m].0 != key;
      assert members[k] == (key, r.value);
      assert forall m :: k < m < |members| ==> members[m].0 != key;
    }
  }

  /** `d.get(key, default)`, or `None` when `d` is not a dict: calling `.get` on any other
      value raises `AttributeError`. */
  function Get(j: Json, key: string, default: Json): (r: Option<Json>)
    ensures r.Some? <==> j.JObject?
  {
    if j.JObject? then
      match Lookup(j.members, key)
      case Some(v) => Some(v)
      case None => Some(default)
    else None
  }

  /** Python's `str(x)` of a decoded value. */
  function PyStr(j: Json): string
  {
    match j
    case JString(s) => s
    case _ => PyRepr(j)
  }

  /** Python's `repr(x)`; a string is shown between single quotes. */
  function PyRepr(j: Json): string
    decreases j, 1
  {
    match j
    case JNull => "None"
    case JBool(b) => if b then "True" else "False"
    case JInt(i) => IntToString(i)
    case JFloat(r) => r
    case JString(s) => "'" + s + "'"
    case JArray(items) => "[" + ReprItems(items) + "]"
    case JObject(members) => "{" + ReprMembers(j, members) + "}"
  }

  function ReprItems(items: seq<Json>): string
    decreases items
  {
    if items == [] then []
    else if |items| == 1 then PyRepr(items[0])
    else PyRepr(items[0]) + ", " + ReprItems(items[1..])
  }

  function ReprMembers(parent: Json, members: seq<(string, Json)>): string
    requires forall m :: m in members ==> m.1 < parent
    decreases parent, 0, |members|
  {
    if members == [] then []
    else
      var entry := "'" + members[0].0 + "': " + PyRepr(members[0].1);
      if |members| == 1 then entry else entry + ", " + ReprMembers(parent, members[1..])
  }

  /** `str(None)` is the non-empty text `None`, so a JSON null is never an empty string
      after `str()`; only an empty or blank string renders as nothing once stripped. */
  lemma NullRendersAsNone()
    ensures PyStr(JNull) == "None" && Strip(PyStr(JNull)) != []
  {
    StripOfStripped("None");
  }

  /** The shape of Python's `str()` of a float: digits with an optional sign, or `inf`,
      `-inf`, `nan`; in particular it starts with a sign, a digit or a letter. */
  predicate FloatText(r: string) {
    r != [] && (r[0] == '-' || '0' <= r[0] <= '9' || r[0] == 'i' || r[0] == 'n')
  }

  /** `str(x).strip()` is empty exactly for a JSON string made of whitespace only. */
  lemma RendersBlankIff(j: Json)
    requires j.JFloat? ==> FloatText(j.repr)
    ensures Strip(PyStr(j)) == [] <==> j.JString? && AllSpace(j.s)
  {
    StripEmptyIff(PyStr(j));
    if !j.JString? {
      var r := PyStr(j);
      assert r != [] && !IsSpace(r[0]) by {
        if j.JInt? {
          if j.i < 0 { assert r[0] == '-'; } else { assert r[0] == NatToString(j.i)[0]; }
        }
      }
    }
  }
}
